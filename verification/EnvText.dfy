/** The environment block of tools/envtools/fw_env.c: a run of name=value strings, each
    ended by a NUL and the last by two, edited in place as a map from names to values. */
module EnvText {
  import opened Wrappers

  const NUL: char := '\0'

  /** A C string */
  type CStr = s: string | NUL !in s

  // ------------------------------------------------------------ names, values

  /** Everything in front of the first equals sign; all of it when there is none. */
  function Key(s: string): (k: string)
    ensures '=' !in k && k <= s && (|k| < |s| ==> s[|k|] == '=')
    ensures '=' !in s ==> k == s
    ensures NUL !in s ==> NUL !in k
  {
    if s == "" || s[0] == '=' then ""
    else
      var k := Key(s[1..]);
      assert [s[0]] + k <= s by { assert s == [s[0]] + s[1..]; }
      [s[0]] + k
  }

  /** Everything behind the first equals sign. */
  function Value(s: string): string
    requires '=' in s
  {
    KeyEnds(s);
    s[|Key(s)| + 1..]
  }

  lemma KeyEnds(s: string)
    requires '=' in s
    ensures |Key(s)| < |s| && s[|Key(s)|] == '='
  {
    assert |Key(s)| == |s| ==> Key(s) == s;
  }

  /** The first equals sign fixes the key. */
  lemma {:induction false} KeyIs(s: string, n: nat)
    requires n < |s| && s[n] == '=' && '=' !in s[..n]
    ensures Key(s) == s[..n]
  {
    if n > 0 {
      assert s[0] in s[..n];
      assert s[1..][..n - 1] == s[..n][1..];
      KeyIs(s[1..], n - 1);
      assert [s[0]] + s[1..][..n - 1] == s[..n];
    }
  }

  lemma KeyOfNew(name: string, value: string)
    ensures Key(name + "=" + value) == Key(name) && '=' in name + "=" + value
    ensures '=' !in name ==> Value(name + "=" + value) == value
  {
    var s := name + "=" + value;
    assert s[|name|] == '=';
    var n := |Key(name)|;
    assert s[..n] == Key(name);
    assert s[n] == '=' by { if n < |name| { assert name[n] == '='; } }
    KeyIs(s, n);
    if '=' !in name {
      assert s[|name| + 1..] == value;
    }
  }

  // ----------------------------------------------------------------- entries

  predicate Entry(e: string) {
    '=' in e && NUL !in e
  }

  predicate Distinct(es: seq<string>) {
    forall i, j :: 0 <= i < j < |es| ==> Key(es[i]) != Key(es[j])
  }

  predicate Entries(es: seq<string>) {
    (forall i :: 0 <= i < |es| ==> Entry(es[i])) && Distinct(es)
  }

  function Encode(es: seq<string>): string {
    if es == [] then "" else es[0] + [NUL] + Encode(es[1..])
  }

  /** The environment block: always two NULs at its end. */
  function Block(es: seq<string>): string {
    if es == [] then [NUL, NUL] else Encode(es) + [NUL]
  }

  /** The buffer holds these entries; what lies behind the block does not matter. */
  ghost predicate Holds(data: string, es: seq<string>) {
    Entries(es) && Block(es) <= data
  }

  lemma {:induction false} EncodeConcat(a: seq<string>, b: seq<string>)
    ensures Encode(a + b) == Encode(a) + Encode(b)
  {
    if a == [] {
      assert a + b == b;
    } else {
      assert (a + b)[1..] == a[1..] + b;
      EncodeConcat(a[1..], b);
      assert a[0] + [NUL] + (Encode(a[1..]) + Encode(b)) == (a[0] + [NUL] + Encode(a[1..])) + Encode(b);
    }
  }

  /** Where the k-th entry stands in the block. */
  lemma EntryAt(es: seq<string>, k: nat)
    requires k < |es|
    ensures Encode(es) == Encode(es[..k]) + (es[k] + [NUL] + Encode(es[k + 1..]))
  {
    assert es == es[..k] + es[k..];
    EncodeConcat(es[..k], es[k..]);
    assert es[k..][1..] == es[k + 1..];
  }

  // ---------------------------------------------------------- as a map

  /** The index of the entry with this key, or the number of entries. */
  function Find(es: seq<string>, key: string): (k: nat)
    ensures k <= |es| && (k < |es| ==> Key(es[k]) == key)
    ensures forall i :: 0 <= i < k ==> Key(es[i]) != key
  {
    if es == [] || Key(es[0]) == key then 0 else 1 + Find(es[1..], key)
  }

  function Without(es: seq<string>, key: string): seq<string> {
    var k := Find(es, key);
    if k < |es| then es[..k] + es[k + 1..] else es
  }

  function Lookup(es: seq<string>, key: string): Option<string>
    requires Entries(es)
  {
    var k := Find(es, key);
    if k < |es| then Some(Value(es[k])) else None
  }

  datatype Outcome = Written | Overflowed | Unterminated | Overrun

  /** What fw_env_write makes of the entries. */
  function Update(es: seq<string>, name: CStr, value: Option<CStr>, size: nat): (Outcome, seq<string>) {
    var rest := Without(es, Key(name));
    if value.None? || value.value == "" then (Written, rest)
    else
      var es' := rest + [name + "=" + value.value];
      if |Block(es')| <= size then (Written, es') else (Overflowed, rest)
  }

  function Skip(i: nat, k: nat): nat { if i < k then i else i + 1 }

  lemma RemoveEntries(es: seq<string>, k: nat)
    requires Entries(es) && k < |es|
    ensures var w := es[..k] + es[k + 1..];
      Entries(w) && forall i :: 0 <= i < |w| ==> w[i] == es[Skip(i, k)] && Key(w[i]) != Key(es[k])
  {
    hide Key, Entry;
    var w := es[..k] + es[k + 1..];
    forall i | 0 <= i < |w| ensures w[i] == es[Skip(i, k)] && Key(w[i]) != Key(es[k]) && Entry(w[i]) {
    }
    forall i, j | 0 <= i < j < |w| ensures Key(w[i]) != Key(w[j]) {
      assert w[i] == es[Skip(i, k)] && w[j] == es[Skip(j, k)];
    }
  }

  lemma FindNone(es: seq<string>, key: string)
    requires forall i :: 0 <= i < |es| ==> Key(es[i]) != key
    ensures Find(es, key) == |es|
  {
  }

  lemma WithoutEntries(es: seq<string>, key: string)
    requires Entries(es)
    ensures Entries(Without(es, key)) && Find(Without(es, key), key) == |Without(es, key)|
  {
    hide Key, Entries;
    var k := Find(es, key);
    if k < |es| {
      RemoveEntries(es, k);
      FindNone(es[..k] + es[k + 1..], key);
    }
  }

  lemma AddEntry(es: seq<string>, e: string)
    requires Entries(es) && Entry(e) && Find(es, Key(e)) == |es|
    ensures Entries(es + [e])
  {
    hide Key, Entry;
    assert forall i :: 0 <= i < |es| ==> (es + [e])[i] == es[i] && Key(es[i]) != Key(e);
  }

  lemma UpdateEntries(es: seq<string>, name: CStr, value: Option<CStr>, size: nat)
    requires Entries(es)
    ensures Entries(Update(es, name, value, size).1)
  {
    hide Entries, Key;
    WithoutEntries(es, Key(name));
    if value.Some? && value.value != "" {
      NewEntry(es, name, value.value);
    }
  }

  lemma NewEntry(es: seq<string>, name: CStr, value: CStr)
    requires Entries(es)
    ensures Entries(Without(es, Key(name)) + [name + "=" + value])
  {
    hide Entries, Key;
    WithoutEntries(es, Key(name));
    KeyOfNew(name, value);
    var e := name + "=" + value;
    assert NUL !in e;
    AddEntry(Without(es, Key(name)), e);
  }

  lemma {:induction false} FindUnique(es: seq<string>, k: nat, key: string)
    requires Distinct(es) && k < |es| && Key(es[k]) == key
    ensures Find(es, key) == k
  {
    assert forall i :: 0 <= i < k ==> Key(es[i]) != Key(es[k]);
  }

  /** fw_env_write is map update and delete: the name written gets the value, a name deleted or
      overflowed has none, and every other name keeps its value. */
  lemma UpdateIsMapUpdate(es: seq<string>, name: CStr, value: Option<CStr>, size: nat, key: string)
    requires Entries(es)
    ensures var (r, es') := Update(es, name, value, size);
      && Entries(es')
      && Lookup(es', key) ==
           if key != Key(name) then Lookup(es, key)
           else if r == Written && value.Some? && value.value != "" then Some(Value(name + "=" + value.value))
           else None
  {
    UpdateEntries(es, name, value, size);
    WithoutEntries(es, Key(name));
    var rest := Without(es, Key(name));
    var es' := Update(es, name, value, size).1;
    if key == Key(name) {
      if es' != rest {
        KeyOfNew(name, value.value);
        FindUnique(es', |rest|, key);
      }
    } else {
      LookupWithout(es, Key(name), key);
      if es' != rest {
        KeyOfNew(name, value.value);
        LookupAppend(rest, name + "=" + value.value, key);
      }
    }
  }

  lemma FindWithout(es: seq<string>, k: nat, key: string)
    requires Entries(es) && k < |es| && Key(es[k]) != key
    ensures var w := es[..k] + es[k + 1..]; var n := Find(es, key); var m := Find(w, key);
      if n == |es| then m == |w| else m < |w| && w[m] == es[n]
  {
    hide Key, Entry;
    var w, n := es[..k] + es[k + 1..], Find(es, key);
    RemoveEntries(es, k);
    if n < |es| {
      var m := if n < k then n else n - 1;
      assert w[m] == es[n];
      FindUnique(w, m, key);
    } else {
      assert forall i :: 0 <= i < |w| ==> Key(w[i]) != key;
      FindNone(w, key);
    }
  }

  lemma LookupWithout(es: seq<string>, gone: string, key: string)
    requires Entries(es) && Entries(Without(es, gone)) && key != gone
    ensures Lookup(Without(es, gone), key) == Lookup(es, key)
  {
    hide Key, Value;
    var k := Find(es, gone);
    if k < |es| {
      FindWithout(es, k, key);
    }
  }

  lemma LookupAppend(es: seq<string>, e: string, key: string)
    requires Entries(es) && Entries(es + [e]) && Key(e) != key
    ensures Lookup(es + [e], key) == Lookup(es, key)
  {
    var n := Find(es, key);
    if n < |es| {
      FindUnique(es + [e], n, key);
    } else {
      assert forall i :: 0 <= i < |es| ==> (es + [e])[i] == es[i];
    }
  }

  /** Where an entry with another key stands once this key is taken out */
  function Place(es: seq<string>, key: string, i: nat): int {
    if i < Find(es, key) then i else i - 1
  }

  /** The other variables keep their order: of two entries with other keys the first one still
      stands before the second, and the written one comes behind all of them. */
  lemma UpdateKeepsOrder(es: seq<string>, name: CStr, value: Option<CStr>, size: nat, i: nat, j: nat)
    requires Entries(es) && i < j < |es| && Key(es[i]) != Key(name) && Key(es[j]) != Key(name)
    ensures var (r, es') := Update(es, name, value, size); var i', j' := Place(es, Key(name), i), Place(es, Key(name), j);
      && 0 <= i' < j' < |es'| && es'[i'] == es[i] && es'[j'] == es[j]
      && (r == Written && value.Some? && value.value != "" ==> j' < |es'| - 1 && es'[|es'| - 1] == name + "=" + value.value)
  {
    hide Block, Entries;
    var k := Find(es, Key(name));
    OthersBehind(es, Key(name), i);
    OthersBehind(es, Key(name), j);
    assert Place(es, Key(name), i) < Place(es, Key(name), j) by {
      if i < k <= j { assert k != j; }
    }
  }

  lemma OthersBehind(es: seq<string>, key: string, i: nat)
    requires i < |es| && Key(es[i]) != key
    ensures 0 <= Place(es, key, i) < |Without(es, key)| && Without(es, key)[Place(es, key, i)] == es[i]
  {
    hide Key, Find;
    var k := Find(es, key);
    if i > k {
      assert (es[..k] + es[k + 1..])[i - 1] == es[i];
    } else {
      assert i < k;
    }
  }

  /** It fails exactly when the new block is longer than the environment. */
  lemma FitsExactly(es: seq<string>, name: CStr, value: CStr, size: nat)
    requires Entries(es) && value != ""
    ensures var rest := Without(es, Key(name));
      (Update(es, name, Some(value), size).0 == Written) <==> (|Encode(rest)| + |name| + 1 + |value| + 2 <= size)
  {
    var rest, e := Without(es, Key(name)), name + "=" + value;
    EncodeConcat(rest, [e]);
    assert [e][1..] == [];
    assert Encode([e]) == e + [NUL] + "" == e + [NUL];
  }
}
