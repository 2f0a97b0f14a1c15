/** Lists, chains and loops of builtins alone: which of them run, by their return codes. */
module HushLaws {
  import opened HushRun

  /** The shell after the builtins of ids, one after the other. */
  ghost function AfterAll(e: Env, ids: seq<nat>, sh: Shell): Shell
    decreases |ids|
  {
    if ids == [] then sh
    else
      var before, id := AfterAll(e, ids[..|ids| - 1], sh), ids[|ids| - 1];
      Shell(before.trace + [id], Normal(e(before, id)))
  }

  /** What the last of them returns. */
  ghost function LastCode(e: Env, ids: seq<nat>, sh: Shell): int
    requires ids != []
  {
    e(AfterAll(e, ids[..|ids| - 1], sh), ids[|ids| - 1])
  }

  lemma AllMore(e: Env, ids: seq<nat>, id: nat, sh: Shell)
    ensures AfterAll(e, ids + [id], sh) == Shell(AfterAll(e, ids, sh).trace + [id], Normal(e(AfterAll(e, ids, sh), id)))
    ensures LastCode(e, ids + [id], sh) == e(AfterAll(e, ids, sh), id)
  {
    assert (ids + [id])[..|ids|] == ids;
  }

  /** They have run in that order. */
  lemma {:induction false} TraceIs(e: Env, ids: seq<nat>, sh: Shell)
    ensures AfterAll(e, ids, sh).trace == sh.trace + ids
    decreases |ids|
  {
    if ids != [] {
      TraceIs(e, ids[..|ids| - 1], sh);
      assert ids == ids[..|ids| - 1] + [ids[|ids| - 1]];
    }
  }

  lemma SimpleRuns(e: Env, ids: seq<nat>, id: nat, sh: Shell, fuel: nat)
    requires LastCode(e, ids + [id], sh) >= -1
    ensures RunCommand(e, Simple(id), AfterAll(e, ids, sh), fuel) == Ran(AfterAll(e, ids + [id], sh), LastCode(e, ids + [id], sh))
  {
    AllMore(e, ids, id, sh);
  }

  // ---- && and || ----

  function Simples(ids: seq<nat>): seq<Command>
  {
    if ids == [] then [] else [Simple(ids[0])] + Simples(ids[1..])
  }

  /** In a list joined by && (||) the builtins run up to the first that fails (succeeds), whose code is
      the list's. */
  lemma {:induction false} ListRuns(e: Env, op: Style, done: seq<nat>, ids: seq<nat>, n: nat, sh: Shell, rcode: Code, fuel: nat)
    requires 0 < n <= |ids|
    requires forall k :: 0 < k <= n ==> LastCode(e, done + ids[..k], sh) >= -1
    requires forall k :: 0 < k < n ==> (LastCode(e, done + ids[..k], sh) == 0 <==> op.And?)
    requires n == |ids| || (LastCode(e, done + ids[..n], sh) == 0 <==> !op.And?)
    ensures RunParts(e, op, Simples(ids), AfterAll(e, done, sh), rcode, fuel) == Ran(AfterAll(e, done + ids[..n], sh), LastCode(e, done + ids[..n], sh))
    decreases n
  {
    hide AfterAll, LastCode;
    var more := done + [ids[0]];
    assert more == done + ids[..1];
    SimpleRuns(e, done, ids[0], sh, fuel);
    if n == 1 {
      if |ids| == 1 { assert Simples(ids)[1..] == []; }
    } else {
      forall k | 0 < k <= n - 1 ensures more + ids[1..][..k] == done + ids[..k + 1] {}
      ListRuns(e, op, more, ids[1..], n - 1, sh, LastCode(e, more, sh), fuel);
      assert Simples(ids)[1..] == Simples(ids[1..]);
    }
  }

  // ---- if ----

  /** if c0; then b0; elif c1; then b1; ... else d; fi */
  function Chain(cs: seq<nat>, bs: seq<nat>, d: nat): Command
    requires |cs| == |bs|
  {
    If(seq(|cs|, k requires 0 <= k < |cs| => Arm(Just(cs[k]), Just(bs[k]))), Just(d))
  }

  lemma JustRuns(e: Env, ids: seq<nat>, id: nat, sh: Shell, rcode: Code, fuel: nat)
    requires LastCode(e, ids + [id], sh) >= -1
    ensures Run(e, Just(id), AfterAll(e, ids, sh), rcode, fuel) == Ran(AfterAll(e, ids + [id], sh), LastCode(e, ids + [id], sh))
  {
    hide AfterAll, LastCode;
    SimpleRuns(e, ids, id, sh, fuel);
    OneCommand(e, Simple(id), Plain, AfterAll(e, ids, sh), rcode, fuel);
  }

  /** The conditions run up to the first that succeeds, then its branch; if none does, the last branch. */
  lemma {:induction false} ChainRuns(e: Env, done: seq<nat>, cs: seq<nat>, bs: seq<nat>, d: nat, k: nat, j: nat, sh: Shell, rcode: Code, fuel: nat)
    requires |cs| == |bs| && k <= j <= |cs|
    requires forall i :: k < i <= j ==> LastCode(e, done + cs[k..i], sh) >= -1 && LastCode(e, done + cs[k..i], sh) != 0
    requires j < |cs| ==> LastCode(e, done + cs[k..j] + [cs[j]], sh) == 0
    requires LastCode(e, if j < |cs| then done + cs[k..j] + [cs[j]] + [bs[j]] else done + cs[k..] + [d], sh) >= -1
    ensures var ran := if j < |cs| then done + cs[k..j] + [cs[j]] + [bs[j]] else done + cs[k..] + [d];
            RunArms(e, Chain(cs, bs, d), k, AfterAll(e, done, sh), rcode, fuel) == Ran(AfterAll(e, ran, sh), LastCode(e, ran, sh))
    decreases |cs| - k
  {
    hide AfterAll, LastCode, Run, Just;
    var c := Chain(cs, bs, d);
    if k == |cs| {
      assert done + cs[k..] == done;
      JustRuns(e, done, d, sh, rcode, fuel);
    } else {
      var more := done + [cs[k]];
      if k == j {
        assert done + cs[k..j] == done;
        JustRuns(e, done, cs[k], sh, rcode, fuel);
        JustRuns(e, more, bs[k], sh, 0, fuel);
      } else {
        assert more == done + cs[k..k + 1];
        JustRuns(e, done, cs[k], sh, rcode, fuel);
        var next := k + 1;
        forall i | next < i <= j ensures LastCode(e, more + cs[next..i], sh) >= -1 && LastCode(e, more + cs[next..i], sh) != 0
        {
          assert more + cs[next..i] == done + cs[k..i];
        }
        assert more + cs[next..j] == done + cs[k..j];
        assert more + cs[next..] == done + cs[k..];
        ChainRuns(e, more, cs, bs, d, next, j, sh, LastCode(e, more, sh), fuel);
      }
    }
  }

  // ---- while and until ----

  /** n rounds of condition c and body b. */
  function Rounds(c: nat, b: nat, n: nat): seq<nat>
  {
    if n == 0 then [] else [c, b] + Rounds(c, b, n - 1)
  }

  /** After ids the condition demands another round, which ends. */
  ghost predicate Turns(e: Env, until: bool, ids: seq<nat>, c: nat, b: nat, sh: Shell)
  {
    && LastCode(e, ids + [c], sh) >= -1 && LastCode(e, ids + [c] + [b], sh) >= -1
    && (LastCode(e, ids + [c], sh) == 0 <==> !until)
  }

  /** After ids it demands none. */
  ghost predicate Ends(e: Env, until: bool, ids: seq<nat>, c: nat, sh: Shell)
  {
    LastCode(e, ids + [c], sh) >= -1 && (LastCode(e, ids + [c], sh) == 0 <==> until)
  }

  /** The condition of a while (until) fails (succeeds) after n rounds, and not before. */
  ghost predicate TurnsFor(e: Env, until: bool, ids: seq<nat>, c: nat, b: nat, n: nat, sh: Shell)
  {
    (forall k :: 0 <= k < n ==> Turns(e, until, ids + Rounds(c, b, k), c, b, sh)) && Ends(e, until, ids + Rounds(c, b, n), c, sh)
  }

  lemma RoundMore(ids: seq<nat>, c: nat, b: nat, k: nat)
    ensures ids + [c] + [b] + Rounds(c, b, k) == ids + Rounds(c, b, k + 1)
    ensures ids + Rounds(c, b, 0) == ids
  {
    assert Rounds(c, b, k + 1) == [c] + [b] + Rounds(c, b, k);
  }

  lemma TurnsOn(e: Env, until: bool, ids: seq<nat>, c: nat, b: nat, n: nat, sh: Shell)
    requires n > 0 && TurnsFor(e, until, ids, c, b, n, sh)
    ensures TurnsFor(e, until, ids + [c] + [b], c, b, n - 1, sh)
  {
    hide Turns, Ends, Rounds;
    var more := ids + [c] + [b];
    forall k | 0 <= k < n - 1 ensures Turns(e, until, more + Rounds(c, b, k), c, b, sh)
    {
      RoundMore(ids, c, b, k);
      assert Turns(e, until, ids + Rounds(c, b, k + 1), c, b, sh);
    }
    RoundMore(ids, c, b, n - 1);
  }

  lemma FirstTurn(e: Env, until: bool, ids: seq<nat>, c: nat, b: nat, n: nat, sh: Shell)
    requires TurnsFor(e, until, ids, c, b, n, sh)
    ensures if n == 0 then Ends(e, until, ids, c, sh) else Turns(e, until, ids, c, b, sh)
  {
    hide Turns, Ends;
    RoundMore(ids, c, b, 0);
    if n > 0 { assert Turns(e, until, ids + Rounds(c, b, 0), c, b, sh); }
  }

  /** The body runs exactly as often as the condition demands it. */
  lemma {:induction false} LoopTurns(e: Env, until: bool, ids: seq<nat>, c: nat, b: nat, n: nat, sh: Shell, rcode: Code, fuel: nat)
    requires n <= fuel && TurnsFor(e, until, ids, c, b, n, sh)
    ensures var ran := ids + Rounds(c, b, n) + [c];
            && LastCode(e, ran, sh) >= -1
            && RunLoop(e, Loop(until, Just(c), Just(b)), AfterAll(e, ids, sh), rcode, fuel) == Ran(AfterAll(e, ran, sh), LastCode(e, ran, sh))
    decreases n
  {
    hide AfterAll, LastCode, Run, Just, TurnsFor, Rounds;
    FirstTurn(e, until, ids, c, b, n, sh);
    JustRuns(e, ids, c, sh, rcode, fuel);
    RoundMore(ids, c, b, if n == 0 then 0 else n - 1);
    if n > 0 {
      TurnsOn(e, until, ids, c, b, n, sh);
      JustRuns(e, ids + [c], b, sh, LastCode(e, ids + [c], sh), fuel);
      LoopTurns(e, until, ids + [c] + [b], c, b, n - 1, sh, LastCode(e, ids + [c] + [b], sh), fuel - 1);
    }
  }
}
