/**
 The rounds of prepare_ptt (src/ptt2asm.c): regions are translated until no
 keyword is left. When that is so, what comes out, and when it never is.
 */
module Rounds {
  import opened Wrappers
  import opened Nesting

  // ----- the loop over rounds

  /**
   What the loop comes to. Emptied: a round fails, which leaves an empty list
   without any keyword. Forever: a round gives its input back with a keyword in
   it, and so does every round after it.
   */
  datatype Outcome<L> = Done(lines: seq<L>) | Emptied | Unset | Forever

  predicate HasKeyword<L, K>(kw: Keywords<L, K>, code: seq<L>) {
    exists i :: 0 <= i < |code| && kw.IsKeyword(code[i])
  }

  function Run<L(!new), K(!new, ==)>(kw: Keywords<L, K>, code: seq<L>): Outcome<L>
    requires Shrinking(kw)
    decreases Count(kw.parsable, code)
  {
    match Analyse(kw, code)
    case Invalid => Emptied
    case Undefined => Unset
    case Ok(out) =>
      if !HasKeyword(kw, out) then Done(out)
      else if FirstRegion(kw, code).NoRegion? then Forever
      else
        AnalyseShrinks(kw, code);
        Run(kw, out)
  }

  method FindKeyword<L(!new), K(!new)>(kw: Keywords<L, K>, code: seq<L>) returns (found: bool)
    ensures found == HasKeyword(kw, code)
  {
    found := false;
    for i := 0 to |code|
      invariant !found && forall j :: 0 <= j < i ==> !kw.IsKeyword(code[j])
    {
      if kw.opens(code[i]).Some? || kw.closes(code[i]).Some? {
        assert kw.IsKeyword(code[i]);
        return true;
      }
    }
  }

  method FindOpening<L(!new), K(!new)>(kw: Keywords<L, K>, code: seq<L>) returns (found: bool)
    ensures found <==> FirstOpen(kw, code) < |code|
  {
    found := false;
    for i := 0 to |code|
      invariant !found && i <= FirstOpen(kw, code)
    {
      if kw.opens(code[i]).Some? {
        return true;
      }
    }
  }

  /** The do-while loop of prepare_ptt, except that it stops at a round that changes nothing. */
  method RunRounds<L(!new, ==), K(!new, ==)>(kw: Keywords<L, K>, code: seq<L>) returns (r: Outcome<L>)
    requires Shrinking(kw)
    ensures r == Run(kw, code)
  {
    var pttin := code;
    while true
      invariant Run(kw, code) == Run(kw, pttin)
      decreases Count(kw.parsable, pttin)
    {
      var round := AnalyseKeyword(kw, pttin);
      if round.Undefined? {
        return Unset;
      }
      // a round that fails has put nothing into its output list
      var pttout := if round.Ok? then round.lines else [];
      var found := FindKeyword(kw, pttout);
      if !found {
        return if round.Ok? then Done(pttout) else Emptied;
      }
      var opening := FindOpening(kw, pttin);
      if !opening {
        return Forever;
      }
      AnalyseShrinks(kw, pttin);
      pttin := pttout;
    }
  }

  // ----- whether the loop ends

  /** The list after n rounds of the loop as the source has it. */
  function After<L(!new), K(!new, ==)>(kw: Keywords<L, K>, code: seq<L>, n: nat): seq<L>
    requires Shrinking(kw)
    decreases n
  {
    if n == 0 then code
    else
      match Analyse(kw, code)
      case Ok(out) => After(kw, out, n - 1)
      case _ => []
  }

  /** The loop leaves off after its n-th round. */
  ghost predicate Leaves<L(!new), K(!new)>(kw: Keywords<L, K>, code: seq<L>, n: nat)
    requires Shrinking(kw)
  {
    n > 0 && !HasKeyword(kw, After(kw, code, n))
  }

  lemma {:induction false} StuckAfter<L(!new), K(!new)>(kw: Keywords<L, K>, code: seq<L>, n: nat)
    requires Shrinking(kw) && FirstRegion(kw, code).NoRegion?
    ensures After(kw, code, n) == code
    decreases n
  {
    if n > 0 {
      StuckAfter(kw, code, n - 1);
    }
  }

  /** The outcome Forever is the loop that is never left; in every other case it is left. */
  lemma {:induction false} ForeverNeverLeaves<L(!new), K(!new)>(kw: Keywords<L, K>, code: seq<L>)
    requires Shrinking(kw)
    ensures Run(kw, code).Forever? <==> forall n: nat :: !Leaves(kw, code, n)
    decreases Count(kw.parsable, code)
  {
    var round := Analyse(kw, code);
    var out := if round.Ok? then round.lines else [];
    forall n: nat
      ensures n > 0 && round.Ok? ==> After(kw, code, n) == After(kw, out, n - 1)
    {
    }
    if !HasKeyword(kw, out) {
      assert After(kw, code, 1) == out;
      assert Leaves(kw, code, 1);
    } else if FirstRegion(kw, code).NoRegion? {
      forall n: nat
        ensures !Leaves(kw, code, n)
      {
        StuckAfter(kw, code, n);
      }
    } else {
      AnalyseShrinks(kw, code);
      ForeverNeverLeaves(kw, out);
      forall n: nat
        ensures Leaves(kw, code, n) <==> n > 1 && Leaves(kw, out, n - 1)
      {
        if n == 1 {
          assert After(kw, code, 1) == out;
        }
      }
      if exists n: nat :: Leaves(kw, out, n) {
        var n: nat :| Leaves(kw, out, n);
        assert Leaves(kw, code, n + 1);
      }
    }
  }

  /** What is there when the loop ends: no keyword, and every other line once and in order. */
  lemma {:induction false} DoneKeeps<L(!new), K(!new)>(kw: Keywords<L, K>, p: L -> bool, code: seq<L>)
    requires Shrinking(kw) && Untouched(kw, p) && Run(kw, code).Done?
    ensures !HasKeyword(kw, Run(kw, code).lines)
    ensures Filter(p, Run(kw, code).lines) == Filter(p, code)
    decreases Count(kw.parsable, code)
  {
    AnalyseKeeps(kw, p, code);
    var out := Analyse(kw, code).lines;
    if HasKeyword(kw, out) {
      AnalyseShrinks(kw, code);
      DoneKeeps(kw, p, out);
    }
  }

  // ----- which inputs keep the loop from ending

  /**
   How translations change the number of keywords. `bad` is true of an opening
   line whose translation puts a closing keyword in. If one puts an opening
   keyword in, then one that cannot be parsed.
   */
  ghost predicate Generates<L(!new), K(!new)>(
    kw: Keywords<L, K>, open: L -> bool, close: L -> bool, bad: L -> bool)
  {
    && (forall l :: open(l) <==> kw.opens(l).Some?)
    && (forall l :: close(l) <==> kw.closes(l).Some?)
    && (forall l :: open(l) ==> !close(l))
    && (forall l :: bad(l) ==> open(l))
    && forall k, a, b {:trigger kw.parse(k, a, b)} :: kw.opens(a) == Some(k) && kw.parse(k, a, b).Frame? ==>
         FrameEffects(kw, kw.parse(k, a, b), open, close, bad, a)
  }

  ghost predicate FrameEffects<L, K>(
    kw: Keywords<L, K>, frame: Frame<L>, open: L -> bool, close: L -> bool, bad: L -> bool, a: L)
    requires frame.Frame?
  {
    var (before, after) := (frame.before, frame.after);
    && Count(open, after) == Count(close, after) == Count(bad, after) == Count(bad, before) == 0
    && Count(close, before) == (if bad(a) then 1 else 0)
    && (Count(open, before) > 0 ==>
      FirstOpen(kw, before) < |before| && !kw.parsable(before[FirstOpen(kw, before)]))
  }

  /** A frame of which only the last line before the region can be a keyword. */
  lemma EffectsOfShape<L, K>(
    kw: Keywords<L, K>, frame: Frame<L>, open: L -> bool, close: L -> bool, bad: L -> bool, a: L)
    requires frame.Frame? && frame.before != []
    requires forall i :: 0 <= i < |frame.before| - 1 ==>
      !open(frame.before[i]) && !close(frame.before[i]) && !bad(frame.before[i]) && kw.opens(frame.before[i]).None?
    requires forall i :: 0 <= i < |frame.after| ==>
      !open(frame.after[i]) && !close(frame.after[i]) && !bad(frame.after[i])
    requires var last := frame.before[|frame.before| - 1];
      && !bad(last) && (close(last) <==> bad(a)) && (open(last) <==> kw.opens(last).Some?) && !kw.parsable(last)
    ensures FrameEffects(kw, frame, open, close, bad, a)
  {
    var n := |frame.before| - 1;
    var pre, last := frame.before[..n], frame.before[n];
    assert frame.before == pre + [last];
    CountNone(open, frame.after);
    CountNone(close, frame.after);
    CountNone(bad, frame.after);
    CountNone(open, pre);
    CountNone(close, pre);
    CountNone(bad, pre);
    CountSum(open, pre, [last]);
    CountSum(close, pre, [last]);
    CountSum(bad, pre, [last]);
    CountOne(open, last);
    CountOne(close, last);
    CountOne(bad, last);
    if open(last) {
      FirstOpenAt(kw, frame.before, n);
    }
  }

  /** Closing lines that are left over when every opening line has been translated. */
  ghost function Balance<L>(open: L -> bool, close: L -> bool, bad: L -> bool, code: seq<L>): int {
    Count(close, code) - Count(open, code) + Count(bad, code)
  }

  lemma BalanceSum<L>(open: L -> bool, close: L -> bool, bad: L -> bool, a: seq<L>, b: seq<L>)
    ensures Balance(open, close, bad, a + b) == Balance(open, close, bad, a) + Balance(open, close, bad, b)
  {
    CountSum(open, a, b);
    CountSum(close, a, b);
    CountSum(bad, a, b);
  }

  lemma BalanceAround<L>(open: L -> bool, close: L -> bool, bad: L -> bool, a: seq<L>, b: seq<L>, c: seq<L>)
    ensures Balance(open, close, bad, a + b + c)
         == Balance(open, close, bad, a) + Balance(open, close, bad, b) + Balance(open, close, bad, c)
  {
    BalanceSum(open, close, bad, a + b, c);
    BalanceSum(open, close, bad, a, b);
  }

  lemma {:induction false} FirstOpenInPrefix<L, K>(kw: Keywords<L, K>, a: seq<L>, b: seq<L>)
    requires FirstOpen(kw, a) < |a|
    ensures FirstOpen(kw, a + b) == FirstOpen(kw, a)
    decreases |a|
  {
    if kw.opens(a[0]).None? {
      assert (a + b)[1..] == a[1..] + b;
      FirstOpenInPrefix(kw, a[1..], b);
    }
  }

  /** A first opening line that cannot be parsed makes the round fail. */
  lemma UnparsableFails<L(!new), K(!new)>(kw: Keywords<L, K>, code: seq<L>)
    requires Shrinking(kw) && FirstOpen(kw, code) < |code| && !kw.parsable(code[FirstOpen(kw, code)])
    ensures !Analyse(kw, code).Ok?
  {
    var r := FirstRegion(kw, code);
    if r.Region? {
      assert !kw.parse(r.key, code[r.open], code[r.end]).Frame?;
    }
  }

  lemma {:induction false} AnalyseBalance<L(!new), K(!new)>(
    kw: Keywords<L, K>, open: L -> bool, close: L -> bool, bad: L -> bool, code: seq<L>)
    requires Shrinking(kw) && Generates(kw, open, close, bad) && Analyse(kw, code).Ok?
    ensures Balance(open, close, bad, Analyse(kw, code).lines) == Balance(open, close, bad, code)
    decreases Count(kw.parsable, code)
  {
    var r := FirstRegion(kw, code);
    if r.Region? {
      var a, b := code[r.open], code[r.end];
      var frame := kw.parse(r.key, a, b);
      var tmp := Translated(frame, code, r.open, r.end);
      AnalyseRegion(kw, code, r, frame, tmp);
      RegionCloses(kw, code);
      NoOpening(kw, open, frame, code, r.open, r.end);
      AnalyseBalance(kw, open, close, bad, tmp);
      BalanceStep(kw, open, close, bad, code, r.open, r.end, frame, Analyse(kw, tmp).lines);
    }
  }

  lemma NoOpening<L(!new), K(!new)>(
    kw: Keywords<L, K>, open: L -> bool, frame: Frame<L>, code: seq<L>, o: nat, c: nat)
    requires Shrinking(kw) && frame.Frame? && o < c < |code|
    requires Analyse(kw, Translated(frame, code, o, c)).Ok?
    requires Count(open, frame.before) > 0 ==>
      FirstOpen(kw, frame.before) < |frame.before| && !kw.parsable(frame.before[FirstOpen(kw, frame.before)])
    ensures Count(open, frame.before) == 0
  {
    if Count(open, frame.before) > 0 {
      var tmp := Translated(frame, code, o, c);
      assert tmp == frame.before + (code[o + 1..c] + frame.after);
      FirstOpenInPrefix(kw, frame.before, code[o + 1..c] + frame.after);
      UnparsableFails(kw, tmp);
      assert false;
    }
  }

  lemma BalanceStep<L(!new), K(!new)>(
    kw: Keywords<L, K>, open: L -> bool, close: L -> bool, bad: L -> bool,
    code: seq<L>, o: nat, c: nat, frame: Frame<L>, lines: seq<L>)
    requires o < c < |code| && frame.Frame? && FrameEffects(kw, frame, open, close, bad, code[o])
    requires open(code[o]) && !close(code[o]) && close(code[c]) && !open(code[c]) && !bad(code[c])
    requires Count(open, frame.before) == 0
    requires Balance(open, close, bad, lines) == Balance(open, close, bad, Translated(frame, code, o, c))
    ensures Balance(open, close, bad, code[..o] + lines + code[c + 1..]) == Balance(open, close, bad, code)
  {
    BalanceAround(open, close, bad, code[..o], lines, code[c + 1..]);
    BalanceAround(open, close, bad, frame.before, code[o + 1..c], frame.after);
    Cut(code, o, c);
    BalanceAround(open, close, bad, code[..o] + [code[o]], code[o + 1..c], [code[c]] + code[c + 1..]);
    BalanceSum(open, close, bad, code[..o], [code[o]]);
    BalanceSum(open, close, bad, [code[c]], code[c + 1..]);
    CountOne(open, code[o]);
    CountOne(close, code[o]);
    CountOne(bad, code[o]);
    CountOne(open, code[c]);
    CountOne(close, code[c]);
    CountOne(bad, code[c]);
  }

  /**
   Unless a round fails, the loop goes on for ever exactly when a closing keyword
   will be left over; with as many closing as opening lines, when there is an
   opening line whose translation puts a closing keyword in.
   */
  lemma {:induction false} ForeverIffLeftOver<L(!new), K(!new)>(
    kw: Keywords<L, K>, open: L -> bool, close: L -> bool, bad: L -> bool, code: seq<L>)
    requires Shrinking(kw) && Generates(kw, open, close, bad)
    ensures Run(kw, code).Forever? ==> Balance(open, close, bad, code) > 0
    ensures Run(kw, code).Done? ==> Balance(open, close, bad, code) == 0
    decreases Count(kw.parsable, code)
  {
    if Analyse(kw, code).Ok? {
      var out := Analyse(kw, code).lines;
      AnalyseBalance(kw, open, close, bad, code);
      AnalyseShrinks(kw, code);
      if !HasKeyword(kw, out) {
        CountNone(open, out);
        CountNone(close, out);
        CountNone(bad, out);
      } else if FirstRegion(kw, code).NoRegion? {
        CountNone(open, out);
        CountNone(bad, out);
        CountNone(close, out);
      } else {
        ForeverIffLeftOver(kw, open, close, bad, out);
      }
    }
  }
}
