/** String values in configuration files: the escaper that writes them and the in-place reader. */
module KconfigText {
  import opened KconfigLogic

  predicate Special(c: char) { c == '"' || c == '\\' }

  /** Every quote and backslash gets a backslash in front. */
  function Escaped(s: string): string
  {
    if s == "" then "" else (if Special(s[0]) then "\\" + [s[0]] else [s[0]]) + Escaped(s[1..])
  }

  function Specials(s: string): nat
  {
    if s == "" then 0 else (if Special(s[0]) then 1 else 0) + Specials(s[1..])
  }

  predicate PlainTo(s: string, from: nat, to: nat)
    requires from <= to <= |s|
  {
    forall j :: from <= j < to ==> !Special(s[j])
  }

  /** strcspn(s + from, "\"\\"), as a position. */
  function NextSpecial(s: string, from: nat): (i: nat)
    requires from <= |s|
    ensures from <= i <= |s| && (i < |s| ==> Special(s[i])) && PlainTo(s, from, i)
    decreases |s| - from
  {
    if from == |s| || Special(s[from]) then from else NextSpecial(s, from + 1)
  }

  lemma {:induction false} PlainPrefix(s: string, n: nat)
    requires n <= |s| && PlainTo(s, 0, n)
    ensures Escaped(s) == s[..n] + Escaped(s[n..]) && Specials(s) == Specials(s[n..])
  {
    if n == 0 {
      assert s[0..] == s;
    } else {
      PlainPrefix(s[1..], n - 1);
      assert s[1..][n - 1..] == s[n..] && s[..n] == [s[0]] + s[1..][..n - 1];
    }
  }

  /** The escaped text from a special character on. */
  function FromSpecial(s: string, i: nat): string
    requires i <= |s|
  {
    if i == |s| then "" else "\\" + [s[i]] + Escaped(s[i + 1..])
  }

  lemma EscapedStep(s: string, i: nat)
    requires i <= |s| && (i < |s| ==> Special(s[i]))
    ensures Escaped(s[i..]) == FromSpecial(s, i)
    ensures Specials(s[i..]) == if i == |s| then 0 else 1 + Specials(s[i + 1..])
  {
    if i < |s| { assert s[i..][0] == s[i] && s[i..][1..] == s[i + 1..]; }
  }

  lemma PlainShift(s: string, p: nat, i: nat)
    requires p <= i <= |s| && PlainTo(s, p, i)
    ensures PlainTo(s[p..], 0, i - p) && s[p..][..i - p] == s[p..i] && s[p..][i - p..] == s[i..]
  {
    forall j | 0 <= j < i - p ensures !Special(s[p..][j]) { assert s[p..][j] == s[p + j]; }
  }

  /** The scan from one special character to the next. */
  lemma RunAt(s: string, p: nat)
    requires p <= |s|
    ensures var i := NextSpecial(s, p);
            && Escaped(s[p..]) == s[p..i] + FromSpecial(s, i)
            && Specials(s[p..]) == if i == |s| then 0 else 1 + Specials(s[i + 1..])
  {
    var i := NextSpecial(s, p);
    PlainShift(s, p, i);
    hide NextSpecial, Escaped, Specials, FromSpecial, PlainTo, Special;
    PlainPrefix(s[p..], i - p);
    EscapedStep(s, i);
  }

  /** sym_escape_string_value: the quoted text, and the size of the buffer allotted for it. */
  method Escape(text: string) returns (res: string, reslen: nat)
    ensures res == "\"" + Escaped(text) + "\""
    ensures reslen == |res| + 1
  {
    hide Escaped, Specials;
    reslen := |text| + 3;
    var p := 0;
    assert text[0..] == text;
    while true
      invariant p <= |text| && reslen + Specials(text[p..]) == |text| + 3 + Specials(text)
      decreases |text| - p
    {
      RunAt(text, p);
      p := NextSpecial(text, p);
      if p == |text| { break; }
      reslen := reslen + 1;
      p := p + 1;
    }
    res := "\"";
    p := 0;
    while true
      invariant p <= |text| && res + Escaped(text[p..]) == "\"" + Escaped(text)
      decreases |text| - p
    {
      RunAt(text, p);
      var q := NextSpecial(text, p);
      ghost var before, rest := res, Escaped(text[p..]);
      res := res + text[p..q];
      p := q;
      if p == |text| { break; }
      assert before + rest == res + ("\\" + [text[p]] + Escaped(text[p + 1..]));
      res := res + "\\";
      res := res + [text[p]];
      p := p + 1;
      assert before + rest == res + Escaped(text[p..]);
    }
    res := res + "\"";
    EscapedLength(text);
  }

  lemma {:induction false} EscapedLength(s: string)
    ensures |Escaped(s)| == |s| + Specials(s)
  {
    if s != "" { EscapedLength(s[1..]); }
  }

  // ---- reading back ----

  function Prepend(a: string, r: Maybe<string>): Maybe<string>
  {
    if r.Nothing? then Nothing else Just(a + r.value)
  }

  lemma PrependNothing(r: Maybe<string>)
    ensures Prepend("", r) == r
  {
    if r.Just? { assert "" + r.value == r.value; }
  }

  lemma PrependTwice(a: string, b: string, r: Maybe<string>)
    ensures Prepend(a, Prepend(b, r)) == Prepend(a + b, r)
  {
    if r.Just? { assert a + (b + r.value) == (a + b) + r.value; }
  }

  /** What stands before the closing quote, backslashes taken out; nothing if there is no such quote. */
  function Unquoted(t: string): Maybe<string>
  {
    if t == "" then Nothing
    else if t[0] == '"' then Just("")
    else if t[0] != '\\' then Prepend([t[0]], Unquoted(t[1..]))
    else if |t| == 1 then Nothing
    else Prepend([t[1]], Unquoted(t[2..]))
  }

  /** Reading gives back the text that was escaped, whatever follows the closing quote. */
  lemma {:induction false} UnquotedEscaped(s: string, rest: string)
    ensures Unquoted(Escaped(s) + "\"" + rest) == Just(s)
  {
    var t := Escaped(s) + "\"" + rest;
    if s != "" {
      UnquotedEscaped(s[1..], rest);
      var next := Escaped(s[1..]) + "\"" + rest;
      assert t[if Special(s[0]) then 2 else 1..] == next;
      assert s == [s[0]] + s[1..];
    }
  }

  lemma {:induction false} UnquotedRun(t: string, n: nat)
    requires n <= |t| && PlainTo(t, 0, n)
    ensures Unquoted(t) == Prepend(t[..n], Unquoted(t[n..]))
  {
    if n == 0 {
      assert t[0..] == t;
      PrependNothing(Unquoted(t));
    } else {
      UnquotedRun(t[1..], n - 1);
      assert t[1..][n - 1..] == t[n..] && t[..n] == [t[0]] + t[1..][..n - 1];
      PrependTwice([t[0]], t[1..][..n - 1], Unquoted(t[n..]));
    }
  }

  lemma {:induction false} NextSpecialIs(t: string, from: nat, i: nat)
    requires from <= i <= |t| && (i < |t| ==> Special(t[i])) && PlainTo(t, from, i)
    ensures NextSpecial(t, from) == i
    decreases i - from
  {
    if from < i { NextSpecialIs(t, from + 1, i); }
  }

  /** The next special character, seen from the whole line and from what is left of it. */
  lemma NextShifts(a: string, rest: string)
    ensures NextSpecial(a + rest, |a|) == |a| + NextSpecial(rest, 0)
  {
    var t, m := a + rest, NextSpecial(rest, 0);
    forall j | |a| <= j < |a| + m ensures !Special(t[j]) { assert t[j] == rest[j - |a|]; }
    NextSpecialIs(t, |a|, |a| + m);
  }

  /** One round of the reader, over what is left of the line. */
  lemma ReadStep(rest: string)
    ensures var m := NextSpecial(rest, 0);
            Unquoted(rest) ==
              if m == |rest| then Nothing
              else if rest[m] == '"' then Just(rest[..m])
              else if m + 1 == |rest| then Nothing
              else Prepend(rest[..m] + [rest[m + 1]], Unquoted(rest[m + 2..]))
  {
    var m := NextSpecial(rest, 0);
    UnquotedRun(rest, m);
    if m < |rest| { assert rest[m..][0] == rest[m] && rest[..m] + "" == rest[..m]; }
    if m + 1 < |rest| {
      assert rest[m..][1] == rest[m + 1] && rest[m..][2..] == rest[m + 2..];
      PrependTwice(rest[..m], [rest[m + 1]], Unquoted(rest[m + 2..]));
    }
  }

  lemma CutOne(t: string, a: string, c: char, b: string)
    requires t == a + [c] + b
    ensures t[..|a|] + t[|a| + 1..] == a + b
  {
    assert t[..|a|] == a && t[|a| + 1..] == b;
  }

  /** What is settled and what is left when the backslash at rest[m] has gone: the character it
      protected, if there is one, is settled too. */
  function Past(done: string, rest: string, m: nat): (string, string)
    requires m < |rest|
  {
    if m + 1 == |rest| then (done + rest[..m], "") else (done + rest[..m] + [rest[m + 1]], rest[m + 2..])
  }

  lemma PastMeans(done: string, rest: string, m: nat)
    requires m == NextSpecial(rest, 0) < |rest| && rest[m] != '"'
    ensures var after := Past(done, rest, m);
            Prepend(done, Unquoted(rest)) == Prepend(after.0, Unquoted(after.1))
  {
    ReadStep(rest);
    hide Unquoted, NextSpecial;
    if m + 1 < |rest| {
      var b := rest[..m] + [rest[m + 1]];
      PrependTwice(done, b, Unquoted(rest[m + 2..]));
      assert done + b == done + rest[..m] + [rest[m + 1]];
    } else {
      ReadStep("");
    }
  }

  /** What a round of the reader settles. */
  lemma Round(start: string, done: string, rest: string)
    requires Unquoted(start) == Prepend(done, Unquoted(rest))
    ensures var m := NextSpecial(rest, 0);
            if m == |rest| then Unquoted(start) == Nothing
            else if rest[m] == '"' then Unquoted(start) == Just(done + rest[..m])
            else var after := Past(done, rest, m); Unquoted(start) == Prepend(after.0, Unquoted(after.1))
  {
    hide Unquoted, NextSpecial, Past;
    ReadStep(rest);
    var m := NextSpecial(rest, 0);
    if m < |rest| && rest[m] != '"' { PastMeans(done, rest, m); }
  }

  /** The line, with part of it settled. */
  function Whole(done: string, rest: string): string { "\"" + done + rest }

  lemma PastCuts(done: string, rest: string, m: nat)
    requires m < |rest|
    ensures var t, p2, after := Whole(done, rest), 1 + |done| + m, Past(done, rest, m);
            p2 < |t| && t[..p2] + t[p2 + 1..] == Whole(after.0, after.1)
  {
    var a, b := Whole(done, rest[..m]), rest[m + 1..];
    assert Whole(done, rest) == a + [rest[m]] + b;
    CutOne(Whole(done, rest), a, rest[m], b);
    if b != "" { assert b == [rest[m + 1]] + rest[m + 2..]; }
  }

  lemma PastShrinks(done: string, rest: string, m: nat)
    requires m < |rest|
    ensures var after := Past(done, rest, m);
            && |after.1| < |rest| && (|after.0| == |done| + m + 1 || (after.1 == "" && |after.0| == |done| + m))
  {
  }

  lemma Found(done: string, rest: string)
    ensures var t, m := Whole(done, rest), NextSpecial(rest, 0);
            && |t| == 1 + |done| + |rest| && NextSpecial(t, 1 + |done|) == 1 + |done| + m
            && (m < |rest| ==>
                  && t[1 + |done| + m] == rest[m] && Special(rest[m])
                  && t[..1 + |done| + m] == "\"" + (done + rest[..m]) && t[..1 + |done| + m][1..] == done + rest[..m])
  {
    NextShifts("\"" + done, rest);
  }

  /** Skipped: the value does not start with a quote and is ignored. */
  datatype Outcome = Skipped | Invalid | Stored(value: string)

  function Reading(t: string): Outcome
  {
    if t == "" || t[0] != '"' then Skipped
    else if Unquoted(t[1..]).Nothing? then Invalid
    else Stored(Unquoted(t[1..]).value)
  }

  /** A line of the file being read, edited where it stands. */
  class Line {
    var text: string

    constructor (t: string)
      ensures text == t
    {
      text := t;
    }

    /** conf_set_sym_val for a string symbol and any line's value. */
    method SetString() returns (r: Outcome)
      modifies this
      ensures r == Reading(old(text))
      ensures r.Stored? ==> text == "\"" + r.value
    {
      if text == "" || text[0] != '"' {
        return Skipped;
      }
      ghost var start, done, rest := text[1..], "", text[1..];
      var p2 := 1;
      PrependNothing(Unquoted(rest));
      assert text == Whole(done, rest);
      hide Unquoted, NextSpecial, Special, Whole, Past, Prepend;
      while true
        invariant text == Whole(done, rest) && Unquoted(start) == Prepend(done, Unquoted(rest))
        invariant p2 == 1 + |done| || (rest == "" && p2 == 2 + |done|)
        decreases |rest|
      {
        ghost var m := NextSpecial(rest, 0);
        Found(done, rest);
        Round(start, done, rest);
        // After a last backslash the search starts behind the shortened text, at its old end.
        p2 := if p2 > |text| then |text| else NextSpecial(text, p2);
        if p2 == |text| {
          return Invalid;
        }
        if text[p2] == '"' {
          text := text[..p2];
          return Stored(text[1..]);
        }
        PastCuts(done, rest, m);
        PastShrinks(done, rest, m);
        text := text[..p2] + text[p2 + 1..];
        done, rest := Past(done, rest, m).0, Past(done, rest, m).1;
        p2 := p2 + 1;
      }
    }
  }
}
