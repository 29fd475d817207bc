/** fw_getenv on two devices: the variables of the copy that is opened, or the default environment
    where no copy is intact. */
module EnvDefaults {
  import opened Arithmetic
  import opened Wrappers

  import opened EnvText
  import opened EnvStore
  import opened EnvRedundant
  import opened EnvDevices

  /** The bytes as chars */
  function TextOf(data: seq<byte>): (s: string)
    ensures |s| == |data| && forall i :: 0 <= i < |data| ==> s[i] == data[i] as char
  {
    seq(|data|, i requires 0 <= i < |data| => data[i] as char)
  }

  /** What holds the entries still does with other bytes behind it. */
  lemma LongerHolds(short: seq<byte>, long: seq<byte>, es: seq<string>)
    requires Holds(TextOf(short), es) && short <= long
    ensures Holds(TextOf(long), es)
  {
    hide Block, Entries;
    assert TextOf(short) <= TextOf(long);
  }

  /** The entries a device holds behind the checksum and the flag byte */
  ghost predicate Keeps(store: Store, d: Device, es: seq<string>)
    requires store.DeviceOf(d).Valid()
    reads store.DeviceOf(d)
  {
    store.Sums(d) && Holds(TextOf(store.Raw(d).value[5..]), es)
  }

  /** fw_env_open and fw_getenv: a variable of the copy that is opened. On devices without an intact
      copy, such as erased ones, it is one of the default environment. */
  method OpenAndGet(store: Store, name: CStr, ghost es: seq<string>) returns (ok: bool, r: Got)
    requires store.Valid()
    modifies store
    ensures store.Valid() && (ok <==> store.Readable())
    ensures ok && !store.Sums(Zero) && !store.Sums(One) && Holds(TextOf(store.su.deflt), es) ==> r == Got(Lookup(es, Key(name)))
    ensures ok && Keeps(store, store.dev, es) ==> r == Got(Lookup(es, Key(name)))
  {
    hide Holds, Lookup, Key;
    r := GetFailed;
    ok := store.OpenEnv();
    if !ok { return; }
    var bytes := store.data;
    var data := new char[|bytes|](i requires 0 <= i < |bytes| => bytes[i] as char);
    assert data[..] == TextOf(bytes);
    ghost var useDefault := !store.Sums(Zero) && !store.Sums(One) && Holds(TextOf(store.su.deflt), es);
    if useDefault { LongerHolds(store.su.deflt, bytes, es); }
    r := GetEnv(name, data, es);
  }
}
