/** fw_getenv and fw_env_write: the pointer loops over the environment buffer. */
module EnvStore {
  import opened Wrappers

  import opened EnvText

  /** What envmatch returns: the index of the value, or NULL. Overrun stands for reading
      behind one of the strings, which C leaves undefined. */
  datatype Match = Found(val: nat) | NoMatch | MatchOverrun

  datatype Search = Hit(env: nat, nxt: nat, val: nat) | Miss | NotTerminated | SearchOverrun

  ghost predicate EntryHere(data: string, env: nat, e: string) {
    Entry(e) && env + |e| + 1 < |data| && data[env..env + |e|] == e && data[env + |e|] == NUL
  }

  /** The k-th entry of the block, where it stands */
  lemma EntryInData(data: string, es: seq<string>, k: nat)
    requires Holds(data, es) && k < |es|
    ensures EntryHere(data, |Encode(es[..k])|, es[k])
    ensures |Encode(es[..k + 1])| == |Encode(es[..k])| + |es[k]| + 1
  {
    hide Key, Distinct, Encode;
    EntryAt(es, k);
    var env := |Encode(es[..k])|;
    var b := Block(es);
    assert data[..|b|] == b;
    assert b[env..env + |es[k]|] == es[k] && b[env + |es[k]|] == NUL;
    assert data[env..env + |es[k]|] == b[env..env + |es[k]|];
    assert data[env + |es[k]|] == b[env + |es[k]|];
    assert es[..k + 1] == es[..k] + [es[k]];
    EncodeConcat(es[..k], [es[k]]);
    EncodeOne(es[k]);
  }

  lemma EndInData(data: string, es: seq<string>)
    requires Holds(data, es)
    ensures |Encode(es)| < |data| && data[|Encode(es)|] == NUL
  {
    var b := Block(es);
    assert data[|Encode(es)|] == b[|Encode(es)|];
  }

  /** envmatch on a name and the string at env */
  method EnvMatch(name: CStr, data: array<char>, env: nat, ghost e: string) returns (m: Match)
    requires env <= data.Length
    ensures EntryHere(data[..], env, e) ==>
      m == if Key(e) == Key(name) then Found(env + |Key(e)| + 1) else NoMatch
  {
    hide Key;
    var i, j := 0, env;
    ghost var here := EntryHere(data[..], env, e);
    if here { KeyEnds(e); }
    while true
      invariant i <= |name| + 1 && j == env + i
      invariant here ==> i <= |Key(e)| && i <= |name| && name[..i] == e[..i] && '=' !in name[..i]
      decreases |name| + 1 - i
    {
      if i > |name| || j >= data.Length {
        return MatchOverrun;
      }
      var c := if i < |name| then name[i] else NUL;
      var d := data[j];
      assert here && i < |e| ==> d == data[env..env + |e|][i] == e[i];
      j := j + 1;
      if c != d {
        if here { Mismatch(name, e, i, c); }
        return if c == NUL && d == '=' then Found(j) else NoMatch;
      }
      if c == '=' {
        if here {
          KeyIs(name, i);
          KeyIs(e, i);
        }
        return Found(j);
      }
      i := i + 1;
      assert here && i <= |name| ==> name[..i] == name[..i - 1] + [name[i - 1]] && e[..i] == e[..i - 1] + [e[i - 1]];
    }
  }

  /** At the first difference the names are equal only if one ends where the other has its equals sign. */
  lemma Mismatch(name: CStr, e: string, i: nat, c: char)
    requires Entry(e) && i <= |Key(e)| < |e| && i <= |name| && name[..i] == e[..i] && '=' !in name[..i]
    requires c == (if i < |name| then name[i] else NUL) && c != e[i]
    ensures (c == NUL && e[i] == '=') <==> Key(e) == Key(name)
    ensures c == NUL && e[i] == '=' ==> i == |Key(e)|
  {
    KeyEnds(e);
    assert forall q :: 0 <= q < |name| ==> name[q] in name;
    assert i < |Key(e)| ==> e[i] == Key(e)[i];
    assert i < |Key(name)| ==> name[i] == Key(name)[i];
    if c == NUL && e[i] == '=' {
      assert name == name[..i];
      KeyIs(e, i);
    }
  }

  lemma EntryBytes(data: string, env: nat, e: string)
    requires EntryHere(data, env, e)
    ensures |e| > 0 && forall q :: env <= q < env + |e| ==> data[q] != NUL
  {
    forall q | env <= q < env + |e| ensures data[q] != NUL {
      assert data[q] == data[env..env + |e|][q - env] == e[q - env];
      assert e[q - env] in e;
    }
  }

  /** The inner loop to the NUL that ends an entry, with its bounds test */
  method EndOfEntry(data: array<char>, env: nat, ghost e: string) returns (nxt: nat)
    requires env <= data.Length
    ensures env <= nxt <= data.Length && (nxt < data.Length ==> data[nxt] == NUL)
    ensures EntryHere(data[..], env, e) ==> nxt == env + |e|
  {
    nxt := env;
    ghost var here := EntryHere(data[..], env, e);
    if here { EntryBytes(data[..], env, e); }
    while nxt < data.Length && data[nxt] != NUL
      invariant env <= nxt <= data.Length
      invariant here ==> nxt <= env + |e|
    {
      nxt := nxt + 1;
    }
  }

  /** The search loop fw_getenv and fw_env_write share */
  method FindEntry(name: CStr, data: array<char>, ghost es: seq<string>) returns (r: Search)
    ensures Holds(data[..], es) ==> var k := Find(es, Key(name));
      if k == |es| then r == Miss
      else r == Hit(|Encode(es[..k])|, |Encode(es[..k])| + |es[k]|, |Encode(es[..k])| + |Key(name)| + 1)
  {
    hide Holds, Encode, Key, Find;
    var env := 0;
    ghost var k := 0;
    ghost var holds := Holds(data[..], es);
    AtStart(es);
    while true
      invariant env <= data.Length
      invariant holds ==> k <= |es| && env == |Encode(es[..k])| && forall i :: 0 <= i < k ==> Key(es[i]) != Key(name)
      decreases data.Length - env
    {
      ghost var e := "";
      if holds {
        if k < |es| {
          EntryInData(data[..], es, k);
          e := es[k];
          EntryBytes(data[..], env, e);
        } else {
          EndInData(data[..], es);
          assert es[..k] == es;
          FindNone(es, Key(name));
        }
      }
      if env >= data.Length {
        return NotTerminated;
      }
      if data[env] == NUL {
        return Miss;
      }
      var nxt := EndOfEntry(data, env, e);
      if nxt == data.Length {
        return NotTerminated;
      }
      var m := EnvMatch(name, data, env, e);
      match m
      case MatchOverrun => return SearchOverrun;
      case Found(val) =>
        if holds { FindFirst(es, Key(name), k); }
        return Hit(env, nxt, val);
      case NoMatch =>
        env, k := nxt + 1, k + 1;
    }
  }

  lemma AtStart(es: seq<string>)
    ensures |Encode(es[..0])| == 0
  {
  }

  lemma {:induction false} FindFirst(es: seq<string>, key: string, k: nat)
    requires k < |es| && Key(es[k]) == key && forall i :: 0 <= i < k ==> Key(es[i]) != key
    ensures Find(es, key) == k
  {
    if k > 0 {
      assert forall i :: 0 <= i < k - 1 ==> Key(es[1..][i]) == Key(es[i + 1]);
      FindFirst(es[1..], key, k - 1);
    }
  }

  lemma ValueInData(data: string, env: nat, e: string)
    requires EntryHere(data, env, e)
    ensures var val := env + |Key(e)| + 1; val <= env + |e| && data[val..env + |e|] == Value(e)
  {
    KeyEnds(e);
    assert data[env + |Key(e)| + 1..env + |e|] == data[env..env + |e|][|Key(e)| + 1..];
  }

  datatype Got = Got(value: Option<string>) | GetFailed

  /** fw_getenv, once the environment is open: the value is a C string inside the buffer. */
  method GetEnv(name: CStr, data: array<char>, ghost es: seq<string>) returns (r: Got)
    ensures Holds(data[..], es) ==> r == Got(Lookup(es, Key(name)))
  {
    hide Encode, Key, Find, Value, Block, Entries;
    var s := FindEntry(name, data, es);
    match s
    case Miss => return Got(None);
    case Hit(env, nxt, val) =>
      ghost var k := Find(es, Key(name));
      if Holds(data[..], es) {
        EntryInData(data[..], es, k);
        ValueInData(data[..], env, es[k]);
      }
      if val > nxt || nxt > data.Length {
        return GetFailed;
      }
      return Got(Some(data[val..nxt]));
    case _ => return GetFailed;
  }

  // ------------------------------------------------------------- fw_env_write

  /** Two NULs in a row stand only at the end of the block. */
  lemma {:induction false} NoDoubleNul(es: seq<string>, q: nat)
    requires (forall i :: 0 <= i < |es| ==> Entry(es[i])) && q + 1 < |Encode(es)|
    ensures !(Encode(es)[q] == NUL && Encode(es)[q + 1] == NUL)
  {
    var n := |es[0]| + 1;
    var rest := Encode(es[1..]);
    assert Encode(es) == es[0] + [NUL] + rest;
    if q >= n {
      NoDoubleNul(es[1..], q - n);
    } else if q == n - 1 {
      assert es[1..] != [];
      assert Encode(es)[q + 1] == rest[0] == es[1][0];
      assert es[1][0] in es[1];
    } else {
      assert Encode(es)[q] == es[0][q] && es[0][q] in es[0];
    }
  }

  lemma EncodeEnds(es: seq<string>)
    requires es != [] && forall i :: 0 <= i < |es| ==> Entry(es[i])
    ensures |Encode(es)| >= 2 && Encode(es)[|Encode(es)| - 1] == NUL
  {
    var k := |es| - 1;
    EntryAt(es, k);
    assert es[k + 1..] == [];
    assert es[k][0] in es[k];
  }

  /** Moving the rest of the block down over an entry, byte by byte until two NULs in a row:
      tail is what has to be moved, the NUL of its last entry included. */
  method MoveDown(data: array<char>, env0: nat, n0: nat, ghost tail: string) returns (env: nat, r: Outcome)
    requires env0 < n0 < data.Length
    modifies data
    ensures r == Written ==> env < data.Length
    ensures TailHere(old(data[..]), n0, tail) ==>
      r == Written && env == env0 + |tail| && data[..env] == old(data[..env0]) + tail
  {
    env, r := env0, Written;
    var nxt := n0;
    ghost var was := data[..];
    ghost var here := TailHere(was, n0, tail);
    while true
      invariant env0 <= env < nxt < data.Length && nxt - env == n0 - env0
      invariant data[..env0] == was[..env0] && data[env0..env] == was[n0..nxt] && data[nxt..] == was[nxt..]
      invariant here ==> nxt < n0 + |tail|
      decreases data.Length - nxt
    {
      assert data[nxt] == data[nxt..][0] == was[nxt];
      data[env] := data[nxt];
      nxt := nxt + 1;
      assert data[env0..env + 1] == data[env0..env] + [was[nxt - 1]] == was[n0..nxt];
      assert data[nxt..] == was[nxt..];
      if nxt >= data.Length {
        return env, Overrun;
      }
      if here { TailStops(was, n0, tail, nxt - 1); }
      assert data[env] == was[nxt - 1] && data[nxt] == was[nxt];
      if data[env] == NUL && data[nxt] == NUL {
        env := env + 1;
        assert data[..env] == data[..env0] + data[env0..env];
        assert here ==> was[n0..nxt] == tail;
        return;
      }
      env := env + 1;
    }
  }

  /** tail, then a NUL; its own last byte is its only NUL followed by one. */
  ghost predicate TailHere(data: string, n0: nat, tail: string) {
    && tail != [] && n0 + |tail| < |data| && data[n0..n0 + |tail|] == tail && data[n0 + |tail|] == NUL
    && tail[|tail| - 1] == NUL && forall q :: 0 <= q < |tail| - 1 ==> !(tail[q] == NUL && tail[q + 1] == NUL)
  }

  lemma TailStops(data: string, n0: nat, tail: string, p: nat)
    requires TailHere(data, n0, tail) && n0 <= p < n0 + |tail|
    ensures (data[p] == NUL && data[p + 1] == NUL) <==> p == n0 + |tail| - 1
  {
    var q := p - n0;
    assert data[n0..n0 + |tail|][q] == tail[q];
    if q < |tail| - 1 {
      assert data[n0..n0 + |tail|][q + 1] == tail[q + 1];
    }
  }

  /** Taking an entry out: what is behind it is moved over it, up to the two NULs. */
  method Delete(data: array<char>, env0: nat, nxt0: nat, ghost es: seq<string>, ghost k: nat) returns (r: Outcome)
    requires env0 <= nxt0
    modifies data
    ensures Holds(old(data[..]), es) && k < |es| && env0 == |Encode(es[..k])| && nxt0 == env0 + |es[k]|
      ==> r == Written && Holds(data[..], es[..k] + es[k + 1..])
  {
    hide Encode, Holds, TailHere;
    ghost var was := data[..];
    ghost var holds := Holds(was, es) && k < |es| && env0 == |Encode(es[..k])| && nxt0 == env0 + |es[k]|;
    ghost var tail := if holds then Encode(es[k + 1..]) else [];
    if holds {
      DeleteLayout(was, es, k);
      AtStart(es);
    }
    var env, nxt := env0, nxt0 + 1;
    if nxt >= data.Length || env + 1 >= data.Length {
      return Overrun;
    }
    if data[nxt] == NUL {
      data[env] := NUL;
    } else {
      env, r := MoveDown(data, env, nxt, tail);
      if r != Written { return; }
      env := env - 1;
    }
    env := env + 1;
    data[env] := NUL;
    r := Written;
    if holds { DeletedHolds(was, data[..], es, k); }
  }

  lemma Parts(data: string, es: seq<string>, k: nat)
    requires Holds(data, es) && k < |es|
    ensures var env := |Encode(es[..k])|; var n := env + |es[k]| + 1; var tail := Encode(es[k + 1..]);
      && n + |tail| < |data| && data[..env] == Encode(es[..k]) && data[n..n + |tail|] == tail && data[n + |tail|] == NUL
      && Entry(es[k])
  {
    hide Key, Distinct, Encode;
    var env, tail := |Encode(es[..k])|, Encode(es[k + 1..]);
    var n := env + |es[k]| + 1;
    EntryAt(es, k);
    var b := Block(es);
    assert b == Encode(es[..k]) + (es[k] + [NUL] + tail) + [NUL];
    assert data[..|b|] == b;
    assert data[..env] == b[..env];
    assert data[n..n + |tail|] == b[n..n + |tail|];
    assert data[n + |tail|] == b[n + |tail|];
  }

  lemma EntriesOf(data: string, es: seq<string>)
    requires Holds(data, es)
    ensures forall i :: 0 <= i < |es| ==> Entry(es[i])
  {
  }

  /** The parts of the block around the k-th entry */
  lemma DeleteLayout(data: string, es: seq<string>, k: nat)
    requires Holds(data, es) && k < |es|
    ensures var env := |Encode(es[..k])|; var n := env + |es[k]| + 1; var tail := Encode(es[k + 1..]);
      && n < |data| && env + 1 < n && data[..env] == Encode(es[..k])
      && (tail == [] ==> data[n] == NUL)
      && (tail != [] ==> TailHere(data, n, tail) && data[n] != NUL)
      && (k + 1 == |es| ==> tail == [])
  {
    hide Distinct, Encode, Holds, Key;
    var tail := Encode(es[k + 1..]);
    var n := |Encode(es[..k])| + |es[k]| + 1;
    Parts(data, es, k);
    assert es[k][0] in es[k];
    assert Holds(data, es);
    EntriesOf(data, es);
    if es[k + 1..] != [] {
      EncodeEnds(es[k + 1..]);
      forall q | 0 <= q < |tail| - 1 ensures !(tail[q] == NUL && tail[q + 1] == NUL) {
        NoDoubleNul(es[k + 1..], q);
      }
      EncodeStarts(es[k + 1..]);
      assert data[n] == data[n..n + |tail|][0] == tail[0];
    } else {
      assert tail == [] by { assert es[k + 1..] == es[..0]; AtStart(es); }
    }
  }

  lemma EncodeStarts(es: seq<string>)
    requires es != [] && Entry(es[0])
    ensures Encode(es) != [] && Encode(es)[0] != NUL
  {
    assert es[0][0] in es[0];
  }

  lemma DeletedHolds(was: string, now: string, es: seq<string>, k: nat)
    requires Holds(was, es) && k < |es|
    requires var env := |Encode(es[..k])|; var tail := Encode(es[k + 1..]); var m := env + |tail|;
      && m + 1 <= |now| && now[..m] == Encode(es[..k]) + tail && now[m] == NUL
      && (es == [es[0]] ==> |now| >= 2 && now[1] == NUL)
    ensures Holds(now, es[..k] + es[k + 1..])
  {
    hide Entries, Encode;
    var w := es[..k] + es[k + 1..];
    EncodeConcat(es[..k], es[k + 1..]);
    RemoveEntries(es, k);
    if w == [] {
      assert es == [es[0]];
      assert |Encode(es[..k])| == 0 by { AtStart(es); }
      assert es[k + 1..] == es[..0];
      assert now[..2] == [NUL, NUL];
    } else {
      var m := |Encode(w)|;
      assert now[..m + 1] == now[..m] + [now[m]] == Block(w);
    }
  }

  /** The search for the two NULs that end the environment */
  method FindEnd(data: array<char>, ghost es: seq<string>) returns (env: nat, r: Outcome)
    ensures r == Written ==> env + 1 < data.Length
    ensures Holds(data[..], es) ==> r == Written && env == if es == [] then 0 else |Encode(es)| - 1
  {
    env := 0;
    ghost var holds := Holds(data[..], es);
    ghost var goal := if es == [] then 0 else |Encode(es)| - 1;
    if holds { EndLayout(data[..], es); }
    while true
      invariant holds ==> env <= goal
      decreases data.Length - env
    {
      if env + 1 >= data.Length {
        return env, Overrun;
      }
      if data[env] == NUL && data[env + 1] == NUL {
        return env, Written;
      }
      env := env + 1;
    }
  }

  lemma EndLayout(data: string, es: seq<string>)
    requires Holds(data, es)
    ensures var goal := if es == [] then 0 else |Encode(es)| - 1;
      && 0 <= goal && goal + 1 < |data| && data[goal] == NUL && data[goal + 1] == NUL
      && forall q :: 0 <= q < goal ==> !(data[q] == NUL && data[q + 1] == NUL)
  {
    hide Distinct;
    var b := Block(es);
    assert data[..|b|] == b;
    assert forall q :: 0 <= q < |b| ==> data[q] == b[q];
    if es != [] {
      EncodeEnds(es);
      forall q | 0 <= q < |Encode(es)| - 1 ensures !(data[q] == NUL && data[q + 1] == NUL) {
        NoDoubleNul(es, q);
      }
    }
  }

  /** The loop that copies a string up to and with its NUL */
  method CopyString(data: array<char>, start: nat, s: CStr) returns (env: nat)
    requires start + |s| < data.Length
    modifies data
    ensures env == start + |s|
    ensures data[..] == old(data[..start]) + s + [NUL] + old(data[env + 1..])
  {
    env := start;
    ghost var was := data[..];
    var i := 0;
    while i < |s|
      invariant 0 <= i <= |s| && env == start + i
      invariant data[..] == was[..start] + s[..i] + was[env..]
    {
      data[env] := s[i];
      CopiedOne(was, start, s, i, data[..]);
      env := env + 1;
      i := i + 1;
    }
    assert s[..i] == s;
    data[env] := NUL;
  }

  lemma CopiedOne(was: string, start: nat, s: string, i: nat, now: string)
    requires start + i < |was| && i < |s| && now == (was[..start] + s[..i] + was[start + i..])[start + i := s[i]]
    ensures now == was[..start] + s[..i + 1] + was[start + i + 1..]
  {
    assert s[..i + 1] == s[..i] + [s[i]];
  }

  /** The new entry behind the last one, if it fits with its NULs */
  method Append(data: array<char>, name: CStr, value: CStr, ghost es: seq<string>) returns (r: Outcome)
    modifies data
    ensures Holds(old(data[..]), es) ==> var e := name + "=" + value;
      && r == (if |Block(es + [e])| <= data.Length then Written else Overflowed)
      && (r == Overflowed ==> data[..] == old(data[..]))
      && (r == Written && Entries(es + [e]) ==> Holds(data[..], es + [e]))
  {
    hide Encode, Entries;
    ghost var was := data[..];
    ghost var holds := Holds(was, es);
    var env;
    env, r := FindEnd(data, es);
    if r != Written { return; }
    if env > 0 {
      env := env + 1;
    }
    if holds { BlockGrows(was, es, name, value); }
    var len := |name| + 2;
    len := len + |value| + 1;
    if len > data.Length - env {
      return Overflowed;
    }
    PutEntry(data, env, name, value);
  }

  /** The strings and their separators, behind the first env bytes */
  method PutEntry(data: array<char>, start: nat, name: CStr, value: CStr)
    requires start + |name| + |value| + 3 <= data.Length
    modifies data
    ensures old(data[..start]) + name + "=" + value + [NUL] + [NUL] <= data[..]
  {
    ghost var front := data[..start];
    var env := CopyString(data, start, name);
    data[env] := '=';
    assert data[..env + 1] == front + name + "=";
    ghost var mid := data[..env + 1];
    env := CopyString(data, env + 1, value);
    assert data[..env + 1] == mid + value + [NUL];
    ghost var most := data[..env + 1];
    env := env + 1;
    data[env] := NUL;
    assert data[..env] == most;
    assert data[..env + 1] == most + [NUL];
  }

  lemma BlockGrows(data: string, es: seq<string>, name: CStr, value: CStr)
    requires Holds(data, es)
    ensures var e := name + "=" + value; var env := |Encode(es)|;
      && Block(es + [e]) == Encode(es) + name + "=" + value + [NUL] + [NUL]
      && env <= |data| && data[..env] == Encode(es) && (if es == [] then env == 0 else env >= 2)
  {
    EndOfEntries(data, es);
    hide Encode, Holds, Entries;
    var e := name + "=" + value;
    EncodeConcat(es, [e]);
    EncodeOne(e);
    Flatten(Encode(es), name, "=", value, [NUL]);
  }

  lemma Flatten(x: string, a: string, b: string, c: string, d: string)
    ensures x + (a + b + c + d) == x + a + b + c + d
  {
  }

  lemma EncodeOne(e: string)
    ensures Encode([e]) == e + [NUL]
  {
    assert [e][1..] == [];
  }

  lemma EndOfEntries(data: string, es: seq<string>)
    requires Holds(data, es)
    ensures var env := |Encode(es)|;
      env <= |data| && data[..env] == Encode(es) && (if es == [] then env == 0 else env >= 2)
  {
    if es != [] { EncodeEnds(es); }
    hide Key, Distinct;
    assert Block(es)[..|Encode(es)|] == Encode(es);
  }

  /** fw_env_write: 0, or -1 with the old definition already deleted. On a buffer that holds a
      list of entries it makes exactly the updated list, still ended by two NULs. */
  method EnvWrite(data: array<char>, name: CStr, value: Option<CStr>, ghost es: seq<string>) returns (r: Outcome)
    modifies data
    ensures Holds(old(data[..]), es) ==>
      r == Update(es, name, value, data.Length).0 && Holds(data[..], Update(es, name, value, data.Length).1)
  {
    hide Encode, Key, Find, Block, Entries;
    ghost var was := data[..];
    ghost var holds := Holds(was, es);
    ghost var k := Find(es, Key(name));
    ghost var rest := Without(es, Key(name));
    FindBounds(es, Key(name));
    var s := FindEntry(name, data, es);
    match s {
      case NotTerminated => return Unterminated;
      case SearchOverrun => return Overrun;
      case Miss =>
      case Hit(env, nxt, _) =>
        if nxt < env { return Overrun; }
        r := Delete(data, env, nxt, es, k);
        if r != Written { return; }
    }
    assert holds ==> Holds(data[..], rest);
    if value.None? || |value.value| == 0 {
      return Written;
    }
    if holds { NewEntry(es, name, value.value); }
    r := Append(data, name, value.value, rest);
  }

  lemma FindBounds(es: seq<string>, key: string)
    ensures Find(es, key) <= |es|
  {
  }
}
