/** The environment in RAM: name=value strings packed one after another, each closed by a zero
    byte and the last by two, with a checksum over the whole buffer. */
module EnvBuffer {
  import Crc32

  type Byte = bv8
  type Bytes = seq<Byte>

  const NUL: Byte := 0
  const EQUALS: Byte := 61
  const SPACE: Byte := 32

  datatype Var = Var(name: Bytes, value: Bytes)

  predicate WellFormed(v: Var)
  {
    NUL !in v.name && EQUALS !in v.name && NUL !in v.value
  }

  function Entry(v: Var): Bytes { v.name + [EQUALS] + v.value }

  /** The strings with their zero bytes. */
  function Body(vars: seq<Var>): Bytes
  {
    if vars == [] then [] else Entry(vars[0]) + [NUL] + Body(vars[1..])
  }

  function Packed(vars: seq<Var>): Bytes
  {
    if vars == [] then [NUL, NUL] else Body(vars) + [NUL]
  }

  ghost predicate AllWellFormed(vars: seq<Var>)
  {
    forall k :: 0 <= k < |vars| ==> WellFormed(vars[k])
  }

  ghost predicate UniqueNames(vars: seq<Var>)
  {
    forall j, k :: 0 <= j < k < |vars| ==> vars[j].name != vars[k].name
  }

  /** Where string k starts. */
  function Offset(vars: seq<Var>, k: nat): nat
    requires k <= |vars|
  {
    |Body(vars[..k])|
  }

  // ---- where the strings lie ----

  lemma {:induction false} BodySplit(a: seq<Var>, b: seq<Var>)
    ensures Body(a + b) == Body(a) + Body(b)
  {
    if a == [] {
      assert a + b == b;
    } else {
      assert (a + b)[1..] == a[1..] + b;
      BodySplit(a[1..], b);
    }
  }

  /** The packed strings around string k. */
  lemma AroundString(vars: seq<Var>, k: nat)
    requires k < |vars|
    ensures Packed(vars) == Body(vars[..k]) + Entry(vars[k]) + [NUL] + Body(vars[k + 1..]) + [NUL]
    ensures Offset(vars, k + 1) == Offset(vars, k) + |Entry(vars[k])| + 1
  {
    assert vars == vars[..k] + [vars[k]] + vars[k + 1..];
    BodySplit(vars[..k] + [vars[k]], vars[k + 1..]);
    BodySplit(vars[..k], [vars[k]]);
    assert vars[..k + 1] == vars[..k] + [vars[k]];
    assert Body([vars[k]]) == Entry(vars[k]) + [NUL] + Body([]);
  }

  lemma PackedAll(vars: seq<Var>)
    ensures Offset(vars, |vars|) == |Body(vars)|
    ensures |Packed(vars)| == if vars == [] then 2 else |Body(vars)| + 1
    ensures Body(vars) <= Packed(vars)
  {
    assert vars[..|vars|] == vars;
  }

  /** d holds the packed strings at its start. */
  ghost predicate Holds(d: Bytes, vars: seq<Var>)
  {
    AllWellFormed(vars) && Packed(vars) <= d
  }

  /** String k, byte for byte. */
  lemma StringAt(d: Bytes, vars: seq<Var>, k: nat)
    requires Holds(d, vars) && k < |vars|
    ensures var o, e := Offset(vars, k), Entry(vars[k]);
            && o + |e| + 1 < |d| && Offset(vars, k + 1) == o + |e| + 1 < |Packed(vars)|
            && d[o..o + |e|] == e && d[o + |e|] == NUL
            && forall j :: 0 <= j < |e| ==> d[o + j] == e[j] && e[j] != NUL
  {
    var o, e, b := Offset(vars, k), Entry(vars[k]), Body(vars[k + 1..]);
    AroundString(vars, k);
    EntryNonzero(vars[k]);
    hide Entry, Body, WellFormed;
    Inside(d, Body(vars[..k]), e, b);
  }

  lemma Inside(d: Bytes, a: Bytes, e: Bytes, b: Bytes)
    requires a + e + [NUL] + b + [NUL] <= d
    ensures |a| + |e| + 1 < |d| && d[|a|..|a| + |e|] == e && d[|a| + |e|] == NUL
    ensures forall j :: 0 <= j < |e| ==> d[|a| + j] == e[j]
  {
    var p := a + e + [NUL] + b + [NUL];
    forall j | 0 <= j < |e| ensures d[|a| + j] == e[j] { assert p[|a| + j] == e[j]; }
    assert p[|a| + |e|] == NUL;
  }

  /** Past the last string comes the closing zero. */
  lemma EndAt(d: Bytes, vars: seq<Var>)
    requires Holds(d, vars)
    ensures Offset(vars, |vars|) < |d| && d[Offset(vars, |vars|)] == NUL
  {
    PackedAll(vars);
    assert Packed(vars)[|Body(vars)|] == NUL;
  }

  /** The byte at a string's start tells whether there is a string. */
  lemma StartAt(d: Bytes, vars: seq<Var>, k: nat)
    requires Holds(d, vars) && k <= |vars|
    ensures Offset(vars, k) < |d| && (d[Offset(vars, k)] == NUL <==> k == |vars|)
  {
    if k < |vars| {
      StringAt(d, vars, k);
      assert WellFormed(vars[k]);
      EntryNonzero(vars[k]);
      assert d[Offset(vars, k) + 0] == Entry(vars[k])[0];
    } else {
      EndAt(d, vars);
    }
  }

  /** The value within string k. */
  lemma ValueAt(d: Bytes, vars: seq<Var>, k: nat)
    requires Holds(d, vars) && k < |vars|
    ensures var v := Offset(vars, k) + |vars[k].name| + 1;
            v + |vars[k].value| < |d| && d[v..v + |vars[k].value|] == vars[k].value && d[v + |vars[k].value|] == NUL
  {
    StringAt(d, vars, k);
    var o, e, a, b := Offset(vars, k), Entry(vars[k]), vars[k].name + [EQUALS], vars[k].value;
    assert e == a + b;
    hide *;
    TailInside(d, o, e, a, b);
  }

  lemma TailInside(d: Bytes, o: nat, e: Bytes, a: Bytes, b: Bytes)
    requires e == a + b && o + |e| <= |d| && forall j :: 0 <= j < |e| ==> d[o + j] == e[j]
    ensures d[o + |a|..o + |a| + |b|] == b
  {
    forall j | 0 <= j < |b| ensures d[o + |a| + j] == b[j] { assert d[o + (|a| + j)] == e[|a| + j]; }
  }

  // ---- two zero bytes in a row mark the end, and nothing else does ----

  lemma {:induction false} NoEarlyEnd(vars: seq<Var>, i: nat)
    requires AllWellFormed(vars) && vars != [] && i + 2 < |Packed(vars)|
    ensures !(Packed(vars)[i] == NUL && Packed(vars)[i + 1] == NUL)
  {
    var e := Entry(vars[0]);
    assert WellFormed(vars[0]) && |e| > 0;
    assert forall j :: 0 <= j < |e| ==> e[j] != NUL by { EntryNonzero(vars[0]); }
    var rest := vars[1..];
    if rest == [] {
      assert Body(rest) == [] && Packed(vars) == e + [NUL] + [NUL];
    } else {
      assert Packed(vars) == e + [NUL] + Packed(rest);
      assert Packed(rest)[0] != NUL by { EntryNonzero(rest[0]); }
      if i >= |e| + 1 { NoEarlyEnd(rest, i - |e| - 1); }
    }
  }

  lemma EntryNonzero(v: Var)
    requires WellFormed(v)
    ensures |Entry(v)| > 0 && forall j :: 0 <= j < |Entry(v)| ==> Entry(v)[j] != NUL
  {
    var e := Entry(v);
    forall j | 0 <= j < |e| ensures e[j] != NUL
    {
      assert e[j] == if j < |v.name| then v.name[j] else if j == |v.name| then EQUALS else v.value[j - |v.name| - 1];
    }
  }

  lemma EndIsDouble(vars: seq<Var>)
    requires AllWellFormed(vars)
    ensures |Packed(vars)| >= 2 && Packed(vars)[|Packed(vars)| - 2] == NUL && Packed(vars)[|Packed(vars)| - 1] == NUL
  {
    if vars != [] {
      AroundString(vars, |vars| - 1);
      assert vars[|vars| - 1 + 1..] == [];
    }
  }

  // ---- envmatch ----

  function CharAt(s: Bytes, j: nat): Byte { if j < |s| then s[j] else NUL }

  lemma EndOfString(s: Bytes, j: nat)
    requires NUL !in s
    ensures CharAt(s, j) == NUL <==> j >= |s|
  {
  }

  /** What envmatch takes for the name: everything before an equals sign. */
  function NamePart(s: Bytes): (n: Bytes)
    ensures |n| <= |s| && n == s[..|n|] && EQUALS !in n && (|n| < |s| ==> s[|n|] == EQUALS)
  {
    if s == [] || s[0] == EQUALS then [] else [s[0]] + NamePart(s[1..])
  }

  /** Ordinary names: no zero byte, no equals sign. */
  predicate PlainName(s: Bytes) { NUL !in s && EQUALS !in s }

  lemma PlainIsWhole(s: Bytes)
    requires PlainName(s)
    ensures NamePart(s) == s
  {
  }

  lemma EqualsEndsName(v: Var, j: nat)
    requires WellFormed(v) && j <= |v.name|
    ensures |Entry(v)| == |v.name| + 1 + |v.value| && (Entry(v)[j] == EQUALS <==> j == |v.name|)
    ensures j < |v.name| ==> Entry(v)[j] == v.name[j]
  {
  }

  /** The first j characters are the same and none of them is an equals sign. */
  ghost predicate Agree(a: Bytes, b: Bytes, j: nat)
  {
    j <= |a| && j <= |b| && a[..j] == b[..j] && EQUALS !in a[..j]
  }

  lemma NamesMeet(s: Bytes, v: Var, j: nat)
    requires WellFormed(v) && Agree(s, v.name, j)
    ensures (j == |s| || s[j] == EQUALS) && j == |v.name| ==> NamePart(s) == v.name
    ensures NamePart(s) == v.name ==> j <= |NamePart(s)| && (j == |v.name| ==> j == |s| || s[j] == EQUALS) && (j < |v.name| ==> j < |s| && s[j] == v.name[j])
  {
    var n := NamePart(s);
    if (j == |s| || s[j] == EQUALS) && j == |v.name| {
      assert forall x :: 0 <= x < j ==> s[..j][x] == s[x];
      assert forall x :: 0 <= x < |n| ==> n[x] == s[x];
    }
  }

  lemma PrefixesGrow(a: Bytes, b: Bytes, j: nat)
    requires j < |a| && j < |b| && a[j] == b[j] != EQUALS && Agree(a, b, j)
    ensures Agree(a, b, j + 1)
  {
    assert a[..j + 1] == a[..j] + [a[j]] && b[..j + 1] == b[..j] + [b[j]];
  }

  /** A character of the name that is also the string's: the equals sign behind the name, or one more of it. */
  lemma StillEqual(name: Bytes, v: Var, j: nat)
    requires WellFormed(v) && Agree(name, v.name, j) && j < |Entry(v)| && Entry(v)[j] != NUL && CharAt(name, j) == Entry(v)[j]
    ensures j < |name| && (name[j] == EQUALS ==> j == |v.name| && NamePart(name) == v.name)
    ensures name[j] != EQUALS ==> j < |v.name| && Agree(name, v.name, j + 1)
  {
    hide WellFormed, Agree, NamePart, Entry;
    AgreeSofar(name, v.name, j);
    EqualsEndsName(v, j);
    NamesMeet(name, v, j);
    if name[j] != EQUALS { PrefixesGrow(name, v.name, j); }
  }

  /** The first character that is not: the names are equal exactly when this one ends where the string's does. */
  lemma NowDifferent(name: Bytes, v: Var, j: nat)
    requires WellFormed(v) && Agree(name, v.name, j) && NUL !in name && j < |Entry(v)| && CharAt(name, j) != Entry(v)[j]
    ensures CharAt(name, j) == NUL && Entry(v)[j] == EQUALS <==> NamePart(name) == v.name
    ensures NamePart(name) == v.name ==> j == |v.name|
  {
    hide WellFormed, Agree, NamePart, Entry;
    AgreeSofar(name, v.name, j);
    EqualsEndsName(v, j);
    EndOfString(name, j);
    NamesMeet(name, v, j);
  }

  lemma AgreeSofar(a: Bytes, b: Bytes, j: nat)
    requires Agree(a, b, j)
    ensures j <= |a| && j <= |b|
  {
  }

  /** envmatch on string k: the value's place exactly when the names are equal, else -1. */
  method EnvMatch(d: array<Byte>, name: Bytes, start: nat, ghost vars: seq<Var>, ghost k: nat) returns (r: int)
    requires Holds(d[..], vars) && k < |vars| && start == Offset(vars, k) && NUL !in name
    ensures r == if NamePart(name) == vars[k].name then start + |vars[k].name| + 1 else -1
  {
    ghost var v := vars[k];
    StringAt(d[..], vars, k);
    assert WellFormed(v) && Agree(name, v.name, 0);
    hide Holds, Offset, Packed, Body, NamePart, AllWellFormed, Entry, WellFormed, Agree, CharAt;
    EntryNonzero(v);
    var j, i := 0, start;
    while CharAt(name, j) == d[i]
      invariant j <= |name| && j < |Entry(v)| && i == start + j && d[i] == Entry(v)[j] && Agree(name, v.name, j)
      decreases |name| - j
    {
      StillEqual(name, v, j);
      i := i + 1;
      if name[j] == EQUALS {
        return i;
      }
      j := j + 1;
      AgreeSofar(name, v.name, j);
      EqualsEndsName(v, j);
    }
    NowDifferent(name, v, j);
    if CharAt(name, j) == NUL && d[i] == EQUALS {
      return i + 1;
    }
    r := -1;
  }

  // ---- the buffer ----

  function Joined(args: seq<Bytes>): Bytes
  {
    if args == [] then [] else if |args| == 1 then args[0] else Joined(args[..|args| - 1]) + [SPACE] + args[|args| - 1]
  }

  function LastSpace(s: Bytes): (i: nat)
    requires 0x20 in s
    ensures i < |s| && s[i] == 0x20 && 0x20 !in s[i + 1..]
  {
    var n := |s| - 1;
    if s[n] == 0x20 then n
    else
      assert s == s[..n] + [s[n]];
      var i := LastSpace(s[..n]);
      assert s[i + 1..] == s[..n][i + 1..] + [s[n]];
      i
  }

  /** What stands between the blanks of a text. */
  function Words(s: Bytes): seq<Bytes>
    decreases |s|
  {
    if 0x20 !in s then [s] else Words(s[..LastSpace(s)]) + [s[LastSpace(s) + 1..]]
  }

  /** A value made of arguments without blanks has them as its words. */
  lemma {:induction false} WordsOfJoined(args: seq<Bytes>)
    requires args != [] && forall i :: 0 <= i < |args| ==> 0x20 !in args[i]
    ensures Words(Joined(args)) == args
    decreases |args|
  {
    if |args| > 1 {
      var n := |args| - 1;
      var a, b := Joined(args[..n]), args[n];
      WordsOfJoined(args[..n]);
      LastWord(a, b);
      assert Joined(args) == a + [0x20] + b;
      hide LastSpace;
      assert args == args[..n] + [b];
    }
  }

  lemma LastWord(a: Bytes, b: Bytes)
    requires 0x20 !in b
    ensures 0x20 in a + [0x20] + b && LastSpace(a + [0x20] + b) == |a|
    ensures (a + [0x20] + b)[..|a|] == a && (a + [0x20] + b)[|a| + 1..] == b
  {
    var s := a + [0x20] + b;
    assert s[|a|] == 0x20 && s[|a| + 1..] == b;
    var i := LastSpace(s);
    hide LastSpace;
    NoneBehind(s, i);
    NoneBehind(s, |a|);
  }

  lemma NoneBehind(s: Bytes, i: nat)
    requires i < |s| && 0x20 !in s[i + 1..]
    ensures forall k :: i < k < |s| ==> s[k] != 0x20
  {
    forall k | i < k < |s| ensures s[k] != 0x20 { assert s[k] == s[i + 1..][k - i - 1]; }
  }

  /** In bytes: a=1 and b=2 3. */
  lemma PackedInBytes()
    ensures Packed([Var([0x61], [0x31]), Var([0x62], Joined([[0x32], [0x33]]))])
         == [0x61, 0x3D, 0x31, 0, 0x62, 0x3D, 0x32, 0x20, 0x33, 0, 0]
    ensures Packed([]) == [0, 0]
  {
    var v := Var([0x62], [0x32, 0x20, 0x33]);
    var args: seq<Bytes> := [[0x32], [0x33]];
    assert args[..1] == [[0x32]] && Joined(args) == [0x32, 0x20, 0x33];
    assert [Var([0x61], [0x31]), v][1..] == [v] && Body([v]) == Entry(v) + [NUL];
  }

  /** The list without the variable of this name. */
  function Without(vars: seq<Var>, name: Bytes): seq<Var>
  {
    if vars == [] then [] else if vars[0].name == name then vars[1..] else [vars[0]] + Without(vars[1..], name)
  }

  // ---- deleting and appending, on the bytes ----

  /** The packed strings from string k on are packed strings themselves. */
  lemma PackedFrom(vars: seq<Var>, k: nat)
    requires k < |vars|
    ensures Packed(vars) == Body(vars[..k]) + Packed(vars[k..])
  {
    assert vars == vars[..k] + vars[k..];
    BodySplit(vars[..k], vars[k..]);
  }

  lemma TailWellFormed(vars: seq<Var>, k: nat)
    requires AllWellFormed(vars) && k <= |vars|
    ensures AllWellFormed(vars[k..])
  {
  }

  lemma TailAt(d: Bytes, vars: seq<Var>, k: nat)
    requires Holds(d, vars) && k < |vars|
    ensures Offset(vars, k) + |Packed(vars[k..])| <= |d| && d[Offset(vars, k)..Offset(vars, k) + |Packed(vars[k..])|] == Packed(vars[k..])
  {
    hide Body;
    PackedFrom(vars, k);
    hide Packed;
    var o, t := Offset(vars, k), Packed(vars[k..]);
    assert Packed(vars)[o..] == t;
    assert d[o..o + |t|] == Packed(vars)[o..o + |t|];
  }

  lemma GapAt(d: Bytes, vars: seq<Var>, k: nat)
    requires Holds(d, vars) && k < |vars|
    ensures var o, n, tail := Offset(vars, k), Offset(vars, k + 1), vars[k + 1..];
            && n == o + |Entry(vars[k])| + 1 && o + 1 < n < |d| && AllWellFormed(tail) && (d[n] == NUL <==> tail == [])
            && (tail != [] ==> n + |Packed(tail)| <= |d| && d[n..n + |Packed(tail)|] == Packed(tail))
            && (o == 0 <==> k == 0) && (tail == [] ==> Body(tail) == [])
  {
    hide Packed, Entry, Holds, Body, AllWellFormed;
    StartAt(d, vars, k + 1);
    StringAt(d, vars, k);
    NonemptyAt(d, vars, k);
    StringBefore(vars, k);
    TailOf(d, vars, k + 1);
    BodyNil();
    if k + 1 < |vars| { TailAt(d, vars, k + 1); }
  }

  lemma BodyNil()
    ensures Body([]) == []
  {
  }

  lemma NonemptyAt(d: Bytes, vars: seq<Var>, k: nat)
    requires Holds(d, vars) && k < |vars|
    ensures WellFormed(vars[k]) && |Entry(vars[k])| > 0
  {
    assert WellFormed(vars[k]);
    hide Packed;
    EntryNonzero(vars[k]);
  }

  lemma TailOf(d: Bytes, vars: seq<Var>, k: nat)
    requires Holds(d, vars) && k <= |vars|
    ensures AllWellFormed(vars[k..])
  {
    TailWellFormed(vars, k);
  }

  lemma StringBefore(vars: seq<Var>, k: nat)
    requires k <= |vars|
    ensures Offset(vars, k) == 0 <==> k == 0
  {
    if k > 0 { AroundString(vars, k - 1); }
  }

  lemma StartsWith(d: Bytes, a: Bytes, b: Bytes)
    requires |a| + |b| < |d| && (forall j :: 0 <= j < |a| ==> d[j] == a[j]) && (forall j :: 0 <= j < |b| ==> d[|a| + j] == b[j])
    requires d[|a| + |b|] == NUL
    ensures a + b + [NUL] <= d
  {
    forall j | 0 <= j < |a + b + [NUL]| ensures (a + b + [NUL])[j] == d[j]
    {
      if |a| <= j < |a| + |b| { assert d[|a| + (j - |a|)] == b[j - |a|]; }
    }
  }

  lemma BodyStays(d0: Bytes, vars: seq<Var>, k: nat)
    requires Holds(d0, vars) && k <= |vars|
    ensures Offset(vars, k) <= |d0| && forall j :: 0 <= j < Offset(vars, k) ==> d0[j] == Body(vars[..k])[j]
  {
    assert vars == vars[..k] + vars[k..];
    BodySplit(vars[..k], vars[k..]);
    PackedAll(vars);
    var a := Body(vars[..k]);
    forall j | 0 <= j < |a| ensures d0[j] == a[j] { assert Packed(vars)[j] == Body(vars)[j]; }
  }

  lemma RestWellFormed(vars: seq<Var>, k: nat)
    requires AllWellFormed(vars) && k < |vars|
    ensures AllWellFormed(vars[..k] + vars[k + 1..])
  {
    var rest := vars[..k] + vars[k + 1..];
    forall j | 0 <= j < |rest| ensures WellFormed(rest[j]) { assert rest[j] == vars[if j < k then j else j + 1]; }
  }

  lemma GapClosed(d0: Bytes, d: Bytes, vars: seq<Var>, k: nat, env: nat)
    requires Holds(d0, vars) && k < |vars| && |d| == |d0| && Offset(vars, k) <= |d|
    requires forall j :: 0 <= j < Offset(vars, k) ==> d[j] == d0[j]
    requires var o, b := Offset(vars, k), Body(vars[k + 1..]);
             && (if |vars| == 1 then env == 1 && |d| > 1 && d[0] == NUL else env == o + |b| && env < |d|)
             && (forall j :: 0 <= j < |b| ==> o + j < |d| && d[o + j] == b[j]) && d[env] == NUL
    ensures Holds(d, vars[..k] + vars[k + 1..])
  {
    var a, b, rest := Body(vars[..k]), Body(vars[k + 1..]), vars[..k] + vars[k + 1..];
    RestWellFormed(vars, k);
    if |vars| > 1 {
      BodyStays(d0, vars, k);
      BodySplit(vars[..k], vars[k + 1..]);
      PackedSome(rest);
      hide *;
      StartsWith(d, a, b);
    } else {
      hide Body, Holds, AllWellFormed;
      assert rest == [] && Packed(rest) <= d;
    }
    HoldsIs(d, rest);
  }

  lemma PackedSome(vars: seq<Var>)
    requires vars != []
    ensures Packed(vars) == Body(vars) + [NUL]
  {
  }

  lemma HoldsIs(d: Bytes, vars: seq<Var>)
    requires AllWellFormed(vars) && Packed(vars) <= d
    ensures Holds(d, vars)
  {
  }

  function Total(args: seq<Bytes>): nat
  {
    if args == [] then 0 else Total(args[..|args| - 1]) + |args[|args| - 1]| + 1
  }

  lemma {:induction false} TotalIsJoined(args: seq<Bytes>)
    requires args != []
    ensures Total(args) == |Joined(args)| + 1
  {
    if |args| > 1 {
      TotalIsJoined(args[..|args| - 1]);
    } else {
      assert args[..0] == [];
    }
  }

  /** What stands in the buffer once the name and some arguments are written. */
  function Written(name: Bytes, args: seq<Bytes>): Bytes
  {
    if args == [] then name else name + [EQUALS] + Joined(args)
  }

  lemma WrittenAll(name: Bytes, args: seq<Bytes>)
    requires args != []
    ensures Written(name, args) == Entry(Var(name, Joined(args))) && args[..0] == [] && Written(name, []) == name
    ensures |name| < |Entry(Var(name, Joined(args)))|
  {
  }

  lemma WrittenStep(name: Bytes, args: seq<Bytes>, i: nat)
    requires i < |args|
    ensures Written(name, args[..i + 1]) == Written(name, args[..i]) + [if i == 0 then EQUALS else SPACE] + args[i]
    ensures |Written(name, args[..i + 1])| <= |Entry(Var(name, Joined(args)))|
  {
    assert args[..i + 1][..i] == args[..i];
    JoinedPrefix(args, i + 1);
    if i == 0 {
      assert args[..1] == [args[0]];
    } else {
      assert Joined(args[..i + 1]) == Joined(args[..i]) + [SPACE] + args[i];
    }
  }

  lemma {:induction false} JoinedPrefix(args: seq<Bytes>, i: nat)
    requires 0 < i <= |args|
    ensures |Joined(args[..i])| <= |Joined(args)|
    decreases |args| - i
  {
    if i == |args| {
      assert args[..i] == args;
    } else {
      assert args[..i + 1][..i] == args[..i];
      JoinedPrefix(args, i + 1);
    }
  }

  lemma EndPlace(d: Bytes, vars: seq<Var>)
    requires Holds(d, vars)
    ensures |Body(vars)| == if |Packed(vars)| > 2 then |Packed(vars)| - 1 else 0
  {
    if vars != [] {
      assert WellFormed(vars[0]);
      EntryNonzero(vars[0]);
    }
  }

  lemma BodyOne(v: Var)
    ensures Body([v]) == Entry(v) + [NUL]
  {
    assert Body([v]) == Entry(v) + [NUL] + Body([]);
  }

  lemma Grown(vars: seq<Var>, v: Var)
    ensures Packed(vars + [v]) == Body(vars) + Entry(v) + [NUL] + [NUL]
  {
    BodySplit(vars, [v]);
    BodyOne(v);
    hide Body, Entry;
  }

  lemma {:induction false} JoinedIsPlain(args: seq<Bytes>)
    requires forall i :: 0 <= i < |args| ==> NUL !in args[i]
    ensures NUL !in Joined(args)
  {
    if |args| > 1 { JoinedIsPlain(args[..|args| - 1]); }
  }

  lemma Appended(d0: Bytes, d: Bytes, vars: seq<Var>, v: Var)
    requires Holds(d0, vars) && WellFormed(v) && |d| == |d0| && |Body(vars)| + |Entry(v)| + 2 <= |d|
    requires forall j :: 0 <= j < |Body(vars)| ==> d[j] == d0[j]
    requires var o := |Body(vars)|; d[o..o + |Entry(v)|] == Entry(v) && d[o + |Entry(v)|] == NUL && d[o + |Entry(v)| + 1] == NUL
    ensures Holds(d, vars + [v])
  {
    hide Body, Entry, Packed, WellFormed, Holds;
    Grown(vars, v);
    assert vars[..|vars|] == vars;
    BodyStays(d0, vars, |vars|);
    var o, e := |Body(vars)|, Entry(v);
    SliceIs(d, o, e);
    StartsWith(d, Body(vars), e);
    OneMore(d, Body(vars) + e + [NUL]);
    GrownWellFormed(d0, vars, v);
    HoldsIs(d, vars + [v]);
  }

  lemma GrownWellFormed(d: Bytes, vars: seq<Var>, v: Var)
    requires Holds(d, vars) && WellFormed(v)
    ensures AllWellFormed(vars + [v])
  {
    hide Packed, WellFormed;
  }

  lemma SliceIs(d: Bytes, o: nat, e: Bytes)
    requires o + |e| <= |d| && d[o..o + |e|] == e
    ensures forall j :: 0 <= j < |e| ==> d[o + j] == e[j]
  {
    forall j | 0 <= j < |e| ensures d[o + j] == e[j] { assert d[o..o + |e|][j] == d[o + j]; }
  }

  lemma OneMore(d: Bytes, p: Bytes)
    requires p <= d && |p| < |d| && d[|p|] == NUL
    ensures p + [NUL] <= d
  {
  }

  // ---- the list of variables ----

  lemma {:induction false} WithoutAt(vars: seq<Var>, name: Bytes, k: nat)
    requires k <= |vars| && (forall j :: 0 <= j < k ==> vars[j].name != name) && (k < |vars| ==> vars[k].name == name)
    ensures Without(vars, name) == if k < |vars| then vars[..k] + vars[k + 1..] else vars
  {
    if k > 0 {
      WithoutAt(vars[1..], name, k - 1);
      if k < |vars| { CutTail(vars, k); }
    }
  }

  lemma CutTail(vars: seq<Var>, k: nat)
    requires 0 < k < |vars|
    ensures vars[..k] + vars[k + 1..] == [vars[0]] + (vars[1..][..k - 1] + vars[1..][k..])
  {
  }

  /** Removing a variable keeps names unique, removes every trace of its name, and adding it
      back at the end keeps them unique too. */
  lemma {:induction false} WithoutUnique(vars: seq<Var>, name: Bytes)
    requires UniqueNames(vars)
    ensures UniqueNames(Without(vars, name))
    ensures forall j :: 0 <= j < |Without(vars, name)| ==> Without(vars, name)[j].name != name && Without(vars, name)[j] in vars
    ensures forall v :: UniqueNames(Without(vars, name) + [Var(name, v)])
  {
    if vars != [] && vars[0].name != name {
      assert UniqueNames(vars[1..]);
      WithoutUnique(vars[1..], name);
    }
  }

  /** The variables of other names, in order. */
  function Others(vars: seq<Var>, name: Bytes): seq<Var>
  {
    if vars == [] then [] else (if vars[0].name == name then [] else [vars[0]]) + Others(vars[1..], name)
  }

  /** Every variable of another name, and their order, is exactly what it was. */
  lemma {:induction false} OthersKept(vars: seq<Var>, name: Bytes, tail: seq<Var>)
    requires |tail| <= 1 && (tail != [] ==> tail[0].name == name)
    ensures Others(Without(vars, name) + tail, name) == Others(vars, name)
  {
    assert Others(tail, name) == [];
    if vars == [] {
      assert Without(vars, name) + tail == tail;
    } else if vars[0].name == name {
      OthersAppend(vars[1..], tail, name);
    } else {
      var rest := Without(vars[1..], name);
      OthersKept(vars[1..], name, tail);
      TailFirst(vars[0], rest, tail);
    }
  }

  lemma TailFirst(v: Var, rest: seq<Var>, tail: seq<Var>)
    ensures ([v] + rest + tail)[1..] == rest + tail
  {
  }

  lemma {:induction false} OthersAppend(a: seq<Var>, b: seq<Var>, name: Bytes)
    ensures Others(a + b, name) == Others(a, name) + Others(b, name)
  {
    if a == [] {
      assert a + b == b;
    } else {
      assert (a + b)[1..] == a[1..] + b;
      OthersAppend(a[1..], b, name);
    }
  }

  /** Variables _do_setenv treats without side effects on consoles and baud rate. */
  predicate Ordinary(name: Bytes)
  {
    PlainName(name) && name !in SPECIAL
  }

  // "stdin", "stdout", "stderr" and "baudrate"
  const SPECIAL: set<Bytes> :=
    {[115, 116, 100, 105, 110], [115, 116, 100, 111, 117, 116], [115, 116, 100, 101, 114, 114], [98, 97, 117, 100, 114, 97, 116, 101]}

  class Environment {
    const data: array<Byte>
    var crc: bv32
    ghost var vars: seq<Var>

    ghost predicate Valid()
      reads this, data
    {
      Holds(data[..], vars) && UniqueNames(vars)
    }

    ghost predicate CrcOk()
      reads this, data
    {
      crc == Crc32.Crc(0, data[..])
    }

    constructor (size: nat)
      requires size >= 2
      ensures Valid() && CrcOk() && vars == [] && fresh(data) && data.Length == size
    {
      data := new Byte[size](_ => NUL);
      vars := [];
      new;
      assert Packed([]) <= data[..];
      crc := Crc32.Crc32(0, data, data.Length);
      assert data[..data.Length] == data[..];
    }

    /** env_crc_update */
    method UpdateCrc()
      modifies `crc
      ensures CrcOk()
    {
      crc := Crc32.Crc32(0, data, data.Length);
      assert data[..data.Length] == data[..];
    }

    /** The place of the zero byte that closes the string at i. */
    method StringEnd(i: nat, ghost k: nat) returns (nxt: nat)
      requires Holds(data[..], vars) && k < |vars| && i == Offset(vars, k)
      ensures nxt == i + |Entry(vars[k])| && nxt + 1 < data.Length && nxt + 1 == Offset(vars, k + 1)
    {
      StringAt(data[..], vars, k);
      ghost var e := Entry(vars[k]);
      hide Holds, Entry, Offset;
      nxt := i;
      while data[nxt] != NUL
        invariant i <= nxt <= i + |e|
        invariant forall j :: 0 <= j < |e| ==> data[i + j] == e[j] && e[j] != NUL
        decreases i + |e| - nxt
      {
        nxt := nxt + 1;
      }
      ghost var j := nxt - i;
      assert data[i + j] == NUL;
    }

    /** The search loop of _do_setenv and getenv: the string of the variable, or the end of them all. */
    method Find(name: Bytes) returns (env: nat, nxt: nat, val: int, ghost k: nat)
      requires Holds(data[..], vars) && NUL !in name
      ensures k <= |vars| && forall j :: 0 <= j < k ==> vars[j].name != NamePart(name)
      ensures val < 0 ==> k == |vars|
      ensures val >= 0 ==> k < |vars| && vars[k].name == NamePart(name) && env == Offset(vars, k) && val == env + |vars[k].name| + 1
      ensures val >= 0 ==> nxt == env + |Entry(vars[k])| && nxt + 1 < data.Length
    {
      hide Holds, Entry;
      env, nxt, val, k := 0, 0, -1, 0;
      StartAt(data[..], vars, 0);
      while data[env] != NUL
        invariant k <= |vars| && env == Offset(vars, k) && env < data.Length && val == -1
        invariant data[env] == NUL <==> k == |vars|
        invariant forall j :: 0 <= j < k ==> vars[j].name != NamePart(name)
        decreases |vars| - k
      {
        nxt := StringEnd(env, k);
        val := EnvMatch(data, name, env, vars, k);
        if val >= 0 {
          return;
        }
        env := nxt + 1;
        k := k + 1;
        StartAt(data[..], vars, k);
      }
    }

    /** getenv: where the value starts, or -1. */
    method Getenv(name: Bytes) returns (r: int)
      requires Valid() && NUL !in name
      ensures r == -1 <==> forall k :: 0 <= k < |vars| ==> vars[k].name != NamePart(name)
      ensures r != -1 ==> 0 <= r && exists k ::
                0 <= k < |vars| && vars[k].name == NamePart(name) && r + |vars[k].value| < data.Length
                && data[r..r + |vars[k].value|] == vars[k].value && data[r + |vars[k].value|] == NUL
    {
      var env, nxt, val;
      ghost var k;
      env, nxt, val, k := Find(name);
      if val < 0 {
        return -1;
      }
      ValueAt(data[..], vars, k);
      r := val;
    }

    /** Closes the gap string k leaves: the later strings move down, up to the double zero. */
    method Delete(start: nat, end: nat, ghost k: nat)
      requires Holds(data[..], vars) && k < |vars| && start == Offset(vars, k) && end == start + |Entry(vars[k])| && end + 1 < data.Length
      modifies data, `vars
      ensures Holds(data[..], vars) && vars == old(vars)[..k] + old(vars)[k + 1..]
    {
      hide Holds, Entry, Body, Packed;
      ghost var d0, v0 := data[..], vars;
      ghost var tail := v0[k + 1..];
      GapAt(d0, v0, k);
      var env, nxt := start, end + 1;
      if data[nxt] == NUL {
        if env > 0 {
          env := env - 1;
        } else {
          data[env] := NUL;
        }
      } else {
        env := Shift(env, nxt, tail);
      }
      env := env + 1;
      data[env] := NUL;
      vars := v0[..k] + tail;
      GapClosed(d0, data[..], v0, k, env);
    }

    /** t bytes of p have come down from where they were to start, and nothing before start has changed. */
    ghost predicate Down(was: Bytes, p: Bytes, start: nat, from: nat, t: nat)
      reads this, data
      requires start < from && from + |p| <= data.Length == |was| && t <= |p|
    {
      && (forall j :: 0 <= j < start ==> data[j] == was[j])
      && (forall j :: 0 <= j < t ==> data[start + j] == p[j])
      && (forall j :: t <= j < |p| ==> data[from + j] == p[j])
    }

    lemma NothingDown(was: Bytes, p: Bytes, start: nat, from: nat)
      requires start < from && from + |p| <= data.Length == |was| && data[..] == was && data[from..from + |p|] == p
      ensures Down(was, p, start, from, 0)
    {
      forall j | 0 <= j < |p| ensures data[from + j] == p[j] { assert data[from..from + |p|][j] == data[from + j]; }
      forall j | 0 <= j < start ensures data[j] == was[j] { assert data[..][j] == data[j]; }
    }

    /** All of p but its last byte is down. */
    lemma AllDown(was: Bytes, p: Bytes, b: Bytes, start: nat, from: nat)
      requires start < from && from + |p| <= data.Length == |was| && p == b + [NUL] && Down(was, p, start, from, |b|)
      ensures forall j :: 0 <= j < start ==> data[j] == was[j]
      ensures forall j :: 0 <= j < |b| ==> data[start + j] == b[j]
    {
      assert forall j :: 0 <= j < |b| ==> b[j] == p[j];
    }

    /** Both bytes at t are zero exactly at the end. */
    static lemma EndsAt(tail: seq<Var>, p: Bytes, t: nat)
      requires AllWellFormed(tail) && tail != [] && p == Packed(tail) && t + 1 < |p|
      ensures p[t] == NUL && p[t + 1] == NUL <==> t + 2 == |p|
    {
      EndIsDouble(tail);
      if t + 2 < |p| { NoEarlyEnd(tail, t); }
    }

    method MoveByte(ghost was: Bytes, ghost p: Bytes, ghost start: nat, ghost from: nat, env: nat, nxt: nat)
      requires start < from && from + |p| <= data.Length == |was| && start <= env && env - start + 1 < |p| && nxt == from + (env - start)
      requires Down(was, p, start, from, env - start)
      modifies data
      ensures Down(was, p, start, from, env - start + 1) && data[env] == p[env - start] && data[nxt + 1] == p[env - start + 1]
    {
      ghost var t := env - start;
      assert data[nxt] == p[t] && data[from + (t + 1)] == p[t + 1];
      data[env] := data[nxt];
    }

    /** The copying loop: moves the strings at nxt down to env, ending on their last zero byte. */
    method Shift(start: nat, from: nat, ghost tail: seq<Var>) returns (env: nat)
      requires AllWellFormed(tail) && tail != [] && start < from && from + |Packed(tail)| <= data.Length
      requires data[from..from + |Packed(tail)|] == Packed(tail)
      modifies data
      ensures env + 1 == start + |Body(tail)| && env + 1 < data.Length
      ensures forall j :: 0 <= j < start ==> data[j] == old(data[j])
      ensures forall j :: 0 <= j < |Body(tail)| ==> data[start + j] == Body(tail)[j]
    {
      ghost var p, b, was := Packed(tail), Body(tail), data[..];
      EndIsDouble(tail);
      assert p == b + [NUL] && |b| >= 1;
      NothingDown(was, p, start, from);
      hide Packed, Body, AllWellFormed, Down;
      env := start;
      var nxt := from;
      while true
        invariant start <= env < start + |b| && nxt == from + (env - start) && Down(was, p, start, from, env - start)
        decreases start + |b| - env
      {
        ghost var t := env - start;
        MoveByte(was, p, start, from, env, nxt);
        nxt := nxt + 1;
        EndsAt(tail, p, t);
        if data[env] == NUL && data[nxt] == NUL {
          break;
        }
        env := env + 1;
      }
      AllDown(was, p, b, start, from);
    }

    /** Copies a string and its zero byte to start; returns the place of the zero byte. */
    method CopyString(start: nat, s: Bytes) returns (env: nat)
      requires start + |s| < data.Length && NUL !in s
      modifies data
      ensures env == start + |s| && data[env] == NUL && data[start..env] == s
      ensures forall j :: 0 <= j < start ==> data[j] == old(data[j])
    {
      env := start;
      data[env] := CharAt(s, 0);
      while data[env] != NUL
        invariant start <= env <= start + |s| && data[env] == CharAt(s, env - start)
        invariant forall j :: 0 <= j < start ==> data[j] == old(data[j])
        invariant forall j :: 0 <= j < env - start ==> data[start + j] == s[j]
        decreases start + |s| - env
      {
        env := env + 1;
        data[env] := CharAt(s, env - start);
      }
      EndOfString(s, env - start);
    }

    /** The first of the two zero bytes at the end. */
    method FindEnd() returns (env: nat)
      requires Holds(data[..], vars)
      ensures env + 2 == |Packed(vars)| <= data.Length
    {
      EndIsDouble(vars);
      ghost var p := Packed(vars);
      assert forall j :: 0 <= j < |p| ==> data[..][j] == p[j];
      hide Packed;
      env := 0;
      while data[env] != NUL || data[env + 1] != NUL
        invariant env + 2 <= |p|
        decreases |p| - env
      {
        assert data[env] == data[..][env] && data[env + 1] == data[..][env + 1];
        env := env + 1;
      }
      assert data[env] == data[..][env] && data[env + 1] == data[..][env + 1];
      if env + 2 < |p| { NoEarlyEnd(vars, env); }
    }

    /** The room name=args needs, with its two zero bytes. */
    static method Room(name: Bytes, args: seq<Bytes>) returns (len: nat)
      requires args != []
      ensures len == |Entry(Var(name, Joined(args)))| + 2
    {
      len := |name| + 2;
      for i := 0 to |args|
        invariant len == |name| + 2 + Total(args[..i])
      {
        assert args[..i + 1][..i] == args[..i];
        len := len + |args[i]| + 1;
      }
      assert args[..|args|] == args;
      TotalIsJoined(args);
    }

    /** Writes name=args from start on, leaving one zero byte behind. */
    method WriteEntry(start: nat, name: Bytes, args: seq<Bytes>) returns (env: nat)
      requires args != [] && start + |Entry(Var(name, Joined(args)))| < data.Length
      requires NUL !in name && forall i :: 0 <= i < |args| ==> NUL !in args[i]
      modifies data
      ensures env == start + |Entry(Var(name, Joined(args)))| && data[env] == NUL && data[start..env] == Entry(Var(name, Joined(args)))
      ensures forall j :: 0 <= j < start ==> data[j] == old(data[j])
    {
      hide Joined, Total, Written, Entry;
      WrittenAll(name, args);
      env := CopyString(start, name);
      for i := 0 to |args|
        invariant env == start + |Written(name, args[..i])| && env < data.Length && data[env] == NUL
        invariant forall j :: 0 <= j < start ==> data[j] == old(data[j])
        invariant data[start..env] == Written(name, args[..i])
      {
        WrittenStep(name, args, i);
        env := WriteArg(start, env, if i == 0 then EQUALS else SPACE, args[i]);
      }
      assert args[..|args|] == args;
    }

    /** One argument behind its separator. */
    method WriteArg(start: nat, at: nat, sep: Byte, arg: Bytes) returns (env: nat)
      requires start <= at && at + 1 + |arg| < data.Length && NUL !in arg
      modifies data
      ensures env == at + 1 + |arg| && data[env] == NUL && data[start..env] == old(data[start..at]) + [sep] + arg
      ensures forall j :: 0 <= j < start ==> data[j] == old(data[j])
    {
      data[at] := sep;
      ghost var mid := data[start..at + 1];
      assert mid == old(data[start..at]) + [sep];
      env := CopyString(at + 1, arg);
      assert data[start..at + 1] == mid;
      assert data[start..env] == mid + arg;
    }

    /** Appends name=args behind the last string unless it would not fit. */
    method Append(name: Bytes, args: seq<Bytes>) returns (ok: bool)
      requires Holds(data[..], vars) && PlainName(name) && args != [] && forall i :: 0 <= i < |args| ==> NUL !in args[i]
      modifies data, `vars
      ensures ok <==> |Packed(old(vars) + [Var(name, Joined(args))])| <= data.Length
      ensures Holds(data[..], vars) && vars == if ok then old(vars) + [Var(name, Joined(args))] else old(vars)
    {
      hide Joined, Entry, Body, Packed;
      ghost var d0, v0, v := data[..], vars, Var(name, Joined(args));
      var env := FindEnd();
      if env > 0 {
        env := env + 1;
      }
      EndPlace(d0, v0);
      Grown(v0, v);
      var len := Room(name, args);
      if len > data.Length - env {
        return false;
      }
      ghost var start := env;
      env := WriteEntry(env, name, args);
      env := env + 1;
      data[env] := NUL;
      vars := v0 + [v];
      assert data[start..env - 1] == Entry(v);
      JoinedIsPlain(args);
      Appended(d0, data[..], v0, v);
      ok := true;
    }

    /** _do_setenv of an ordinary variable: no arguments delete it, otherwise the arguments joined
        by spaces become its value. On overflow the old definition is gone and the checksum is not
        brought up to date. */
    method Setenv(name: Bytes, args: seq<Bytes>) returns (rc: int)
      requires Valid() && Ordinary(name) && forall i :: 0 <= i < |args| ==> NUL !in args[i]
      modifies data, `vars, `crc
      ensures Valid()
      ensures rc == 0 ==> CrcOk() && vars == Without(old(vars), name) + if args == [] then [] else [Var(name, Joined(args))]
      ensures rc != 0 <==> args != [] && |Packed(Without(old(vars), name) + [Var(name, Joined(args))])| > data.Length
      ensures rc != 0 ==> vars == Without(old(vars), name) && crc == old(crc)
    {
      hide Holds, Packed, Joined;
      var env, nxt, oldval;
      ghost var k;
      PlainIsWhole(name);
      env, nxt, oldval, k := Find(name);
      WithoutAt(vars, name, k);
      WithoutUnique(vars, name);
      if oldval >= 0 {
        Delete(env, nxt, k);
      }
      if args == [] {
        UpdateCrc();
        return 0;
      }
      var ok := Append(name, args);
      if !ok {
        return 1;
      }
      UpdateCrc();
      rc := 0;
    }
  }
}
