/** What a run of an action does, told by its rounds, members and restarts, without the states it passes through, the
    break points and the ticks. Perform returns just these runs. */
module Runs {

  import opened Actions

  /** One call of perform from start to end: the action and the history it leaves, its count, and its rounds; none if
      the action has ended. */
  datatype Step = Step(b: Action, h: History, res: nat, rounds: seq<Round>)

  /** One call of apply and what perform notes after it: a leaf has no tries, a group one, a restart group one for each
      time it starts. */
  datatype Round = Round(b: Action, h: History, tries: seq<Try>)

  /** All members of a group, once each and in order: what they and the history are at the start, and their calls. */
  datatype Try = Try(start: seq<Action>, h: History, steps: seq<Step>)

  /** Nothing is stopped half-way, and nothing will stop. */
  ghost predicate Quiet(a: Action)
    decreases a
  {
    && (a.ctl.status == StatusStart || a.ctl.status == StatusEnd) && a.ctl.breakpoint == {}
    && (a.Leaf? || forall i :: 0 <= i < |a.list| ==> Quiet(a.list[i]))
  }

  // ---------- what changes ----------

  /** A round that made gain changes. */
  ghost function Gained(c: Ctl, gain: nat): Ctl {
    c.(status := StatusRepeat, lcount := c.count, count := c.count + gain,
       applied := c.applied + if gain > 0 then 1 else 0,
       flags := c.flags + if gain > 0 && WarningsOn in c.flags then {WarningsGiven} else {})
  }

  /** The first change since the last reset is announced, if it is to be. */
  ghost function Warning(c: Ctl, id: nat, gain: nat): History {
    if gain > 0 && WarningsOn in c.flags && WarningsGiven !in c.flags then [Warned(id)] else []
  }

  /** b is a, ready to start over, with everything in it. */
  ghost predicate Renewed(a: Action, b: Action)
    decreases a
  {
    && b.id == a.id && b.ctl == a.ctl.(status := StatusStart, flags := a.ctl.flags - {WarningsGiven})
    && match a
      case Leaf(_, _) => b.Leaf?
      case Group(_, _, list, state) => b.Group? && b.state == state && |b.list| == |list| &&
        forall i :: 0 <= i < |list| ==> Renewed(list[i], b.list[i])
      case RestartGroup(_, _, list, state, max, _) =>
        b.RestartGroup? && b.state == state && b.maxrestarts == max && b.curstart == 0 && |b.list| == |list| &&
        forall i :: 0 <= i < |list| ==> Renewed(list[i], b.list[i])
  }

  /** The resets of all leaves in the action, from left to right. */
  ghost function Resets(a: Action): History
    decreases a, 0
  {
    if a.Leaf? then [WasReset(a.id)] else AllResets(a.list)
  }

  ghost function AllResets(list: seq<Action>): History
    decreases list
  {
    if list == [] then [] else Resets(list[0]) + AllResets(list[1..])
  }

  // ---------- runs ----------

  ghost function Sum(steps: seq<Step>): nat {
    if steps == [] then 0 else steps[0].res + Sum(steps[1..])
  }

  ghost function Total(tries: seq<Try>): nat {
    if tries == [] then 0 else Sum(tries[0].steps) + Total(tries[1..])
  }

  ghost function Lefts(steps: seq<Step>): seq<Action> {
    seq(|steps|, i requires 0 <= i < |steps| => steps[i].b)
  }

  /** The history before step k. */
  ghost function At(h: History, steps: seq<Step>, k: nat): History
    requires k <= |steps|
  {
    if k == 0 then h else steps[k - 1].h
  }

  /** A complete call of perform: it goes round until a round makes no change, or once if it does not repeat. Its count
      is that of all rounds. */
  ghost predicate Performed(o: Oracle, a: Action, h: History, s: Step)
    decreases s, 1
  {
    if a.ctl.status == StatusEnd then s == Step(a, h, 0, [])
    else
      && |s.rounds| > 0
      && (forall i :: 0 <= i < |s.rounds| ==>
            OneRound(o, Before(a, h, s.rounds, i).0, Before(a, h, s.rounds, i).1, s.rounds[i]))
      && (forall i :: 0 <= i < |s.rounds| ==>
            (i < |s.rounds| - 1 <==> Changed(s.rounds[i].b) && RepeatApply in a.ctl.flags))
      && var r := s.rounds[|s.rounds| - 1];
         s.h == r.h && s.res == r.b.ctl.count && s.b == r.b.(ctl := r.b.ctl.(status := EndStatus(r.b.ctl)))
  }

  ghost predicate Changed(b: Action) {
    b.ctl.count > b.ctl.lcount
  }

  ghost function EndStatus(c: Ctl): Status {
    if OncePerFunc in c.flags || (OneActPerFunc in c.flags && c.count > 0) then StatusEnd else StatusStart
  }

  ghost function Before(a: Action, h: History, rounds: seq<Round>, i: nat): (Action, History)
    requires i <= |rounds|
  {
    if i == 0 then (a.(ctl := a.ctl.(count := 0)), h) else (rounds[i - 1].b, rounds[i - 1].h)
  }

  /** A leaf is applied. A group performs its members. A restart group does so again, its members reset, as long as a
      restart is pending and allowed. */
  ghost predicate OneRound(o: Oracle, a: Action, h: History, r: Round)
    decreases r, 0
  {
    match a
    case Leaf(id, c) =>
      var gain := o.gain(id, h);
      r == Round(Leaf(id, Gained(c, gain)), h + [Applied(id)] + Warning(c, id, gain), [])
    case Group(id, c, list, _) =>
      && |r.tries| == 1 && r.tries[0].start == list && r.tries[0].h == h && InTurn(o, r.tries[0])
      && var (steps, gain) := (r.tries[0].steps, Sum(r.tries[0].steps));
         r.b == Group(id, Gained(c, gain), Lefts(steps), |list|) &&
         r.h == TryEnd(r.tries[0]) + Warning(c, id, gain)
    case RestartGroup(id, c, list, state, max, cur) =>
      if cur == -1 then r == Round(RestartGroup(id, Gained(c, 0), list, state, max, -1), h, [])
      else
        && Tried(o, list, h, cur, max, r.tries)
        && var (last, gain) := (r.tries[|r.tries| - 1], Total(r.tries));
           r.b == RestartGroup(id, Gained(c, gain), Lefts(last.steps), |list|, max,
                               StartsLeft(o, TryEnd(last), cur + |r.tries| - 1)) &&
           r.h == TryEnd(last) + Exceeded(o, TryEnd(last)) + Warning(c, id, gain)
  }

  /** The tries of a restart group: after each but the last, a restart is pending and allowed. */
  ghost predicate Tried(o: Oracle, list: seq<Action>, h: History, cur: nat, max: int, tries: seq<Try>)
    decreases tries, 1
  {
    && |tries| > 0 && tries[0].start == list && tries[0].h == h
    && (forall k :: 0 <= k < |tries| ==> InTurn(o, tries[k]))
    && (forall k :: 0 < k < |tries| ==> Restarted(tries[k - 1], tries[k]))
    && forall k :: 0 <= k < |tries| ==> (k < |tries| - 1 <==> StartsAgain(o, TryEnd(tries[k]), cur + k, max))
  }

  /** Every member is performed once, in order, from the first. */
  ghost predicate InTurn(o: Oracle, t: Try)
    decreases t, 0
  {
    |t.steps| == |t.start| &&
    forall k :: 0 <= k < |t.steps| ==> Performed(o, t.start[k], At(t.h, t.steps, k), t.steps[k])
  }

  ghost function TryEnd(t: Try): History {
    At(t.h, t.steps, |t.steps|)
  }

  /** The analysis is cleared and the members are reset. */
  ghost predicate Restarted(t: Try, u: Try) {
    AllRenewed(Lefts(t.steps), u.start) && u.h == TryEnd(t) + [Cleared] + AllResets(Lefts(t.steps))
  }

  ghost predicate AllRenewed(list: seq<Action>, start: seq<Action>) {
    |start| == |list| && forall i :: 0 <= i < |list| ==> Renewed(list[i], start[i])
  }

  ghost predicate StartsAgain(o: Oracle, h: History, starts: int, max: int) {
    o.restartPending(h) && !o.jumptableRecovery(h) && starts < max
  }

  /** A restart that stays pending leaves the count of restarts, anything else completes the group. */
  ghost function StartsLeft(o: Oracle, h: History, starts: nat): Starts {
    if o.restartPending(h) && o.jumptableRecovery(h) then starts else -1
  }

  ghost function Exceeded(o: Oracle, h: History): History {
    if o.restartPending(h) && !o.jumptableRecovery(h) then [RestartsExceeded] else []
  }

  // ---------- ticks ----------

  ghost function Cost(s: Step): nat
    decreases s, 1
  {
    if s.rounds == [] then 0 else 2 + RoundsCost(s.rounds)
  }

  ghost function RoundsCost(rounds: seq<Round>): nat
    decreases rounds, 0
  {
    if rounds == [] then 0 else 1 + TriesCost(rounds[0].tries) + RoundsCost(rounds[1..])
  }

  /** A tick for each restart. */
  ghost function TriesCost(tries: seq<Try>): nat
    decreases tries, 0
  {
    if tries == [] then 0
    else StepsCost(tries[0].steps) + (if |tries| > 1 then 1 else 0) + TriesCost(tries[1..])
  }

  ghost function StepsCost(steps: seq<Step>): nat
    decreases steps, 0
  {
    if steps == [] then 0 else Cost(steps[0]) + StepsCost(steps[1..])
  }

  // ---------- resetting ----------

  lemma {:induction false} ResetRenews(a: Action, h: History)
    ensures Renewed(a, Reset(a, h).0) && Reset(a, h).1 == h + Resets(a) && (Quiet(a) ==> Quiet(Reset(a, h).0))
    decreases a, 0
  {
    if !a.Leaf? { ResetAllRenews(a.list, h); }
  }

  lemma {:induction false} ResetAllRenews(list: seq<Action>, h: History)
    ensures AllRenewed(list, ResetAll(list, h).0) && ResetAll(list, h).1 == h + AllResets(list)
    ensures AllQuiet(list) ==> AllQuiet(ResetAll(list, h).0)
    decreases list
  {
    if list != [] {
      var (b, h1) := Reset(list[0], h);
      ResetRenews(list[0], h);
      ResetAllRenews(list[1..], h1);
      var rest := ResetAll(list[1..], h1).0;
      assert h + Resets(list[0]) + AllResets(list[1..]) == h + (Resets(list[0]) + AllResets(list[1..]));
      forall i | 0 <= i < |list| ensures Renewed(list[i], ([b] + rest)[i]) {
        if i > 0 { assert list[i] == list[1..][i - 1] && ([b] + rest)[i] == rest[i - 1]; }
      }
      if AllQuiet(list) { assert AllQuiet(list[1..]); }
    }
  }

  ghost predicate AllQuiet(list: seq<Action>) {
    forall i :: 0 <= i < |list| ==> Quiet(list[i])
  }

  /** There is one way to be renewed. */
  lemma {:induction false} RenewedOnce(a: Action, b: Action, c: Action)
    requires Renewed(a, b) && Renewed(a, c)
    ensures b == c
    decreases a
  {
    if !a.Leaf? {
      forall i | 0 <= i < |a.list| ensures b.list[i] == c.list[i] { RenewedOnce(a.list[i], b.list[i], c.list[i]); }
      assert b.list == c.list;
    }
  }

  lemma AllRenewedOnce(list: seq<Action>, b: seq<Action>, c: seq<Action>)
    requires AllRenewed(list, b) && AllRenewed(list, c)
    ensures b == c
  {
    forall i | 0 <= i < |list| ensures b[i] == c[i] { RenewedOnce(list[i], b[i], c[i]); }
  }

  // ---------- a run is what perform returns ----------

  /** Between two rounds, or before the first. */
  ghost predicate Rested(a: Action) {
    a.ctl.status != StatusMid && Quiet(a.(ctl := a.ctl.(status := StatusStart)))
  }

  /** What perform does after an apply that made gain changes. */
  lemma NoteRuns(o: Oracle, z: Action, h: History, m: nat, c: Ctl, gain: nat)
    requires z.ctl == c.(status := StatusMid, lcount := c.count, count := c.count + gain) && c.breakpoint == {} && m > 0
    ensures AfterApply(o, Ret(z, h, 0, m)) == Bottom(o, z.(ctl := Gained(c, gain)), h + Warning(c, z.id, gain), m - 1)
  {
    hide Bottom;
    var d := z.(ctl := Gained(c, gain));
    if gain > 0 {
      var (b, h1) := NoteApplied(z, h);
      assert b == d.(ctl := d.ctl.(status := StatusMid));
      assert h1 == h + Warning(c, z.id, gain);
      BottomEitherWay(o, d, StatusMid, h1, m - 1);
    } else {
      assert z == d.(ctl := d.ctl.(status := StatusMid));
      assert h + [] == h;
      BottomEitherWay(o, d, StatusMid, h, m - 1);
    }
  }

  /** How perform begins. */
  lemma PerformStarts(o: Oracle, a: Action, h: History, n: nat)
    requires Quiet(a)
    ensures Rested(a.(ctl := a.ctl.(count := 0)))
    ensures Perform(o, a, h, n) == if a.ctl.status == StatusEnd then Ret(a, h, 0, n)
                                   else if n == 0 then Stuck
                                   else Again(o, a.(ctl := a.ctl.(count := 0)), h, n - 1)
  {
    hide Again;
  }

  lemma {:induction false} StepRuns(o: Oracle, a: Action, h: History, s: Step, n: nat)
    requires Quiet(a) && Performed(o, a, h, s) && n >= Cost(s)
    ensures Perform(o, a, h, n) == Ret(s.b, s.h, s.res, n - Cost(s)) && Quiet(s.b)
    decreases s, 3
  {
    PerformStarts(o, a, h, n);
    hide Again, Perform, Quiet, Rested;
    if a.ctl.status != StatusEnd {
      assert s.rounds[0..] == s.rounds;
      RoundsRun(o, a, h, s, 0, n - 1);
    }
  }

  /** Round i of a call, and what follows it. */
  lemma RoundOf(o: Oracle, a: Action, h: History, s: Step, i: nat)
    requires a.ctl.status != StatusEnd && Performed(o, a, h, s) && i < |s.rounds|
    ensures OneRound(o, Before(a, h, s.rounds, i).0, Before(a, h, s.rounds, i).1, s.rounds[i])
    ensures i < |s.rounds| - 1 <==> Changed(s.rounds[i].b) && RepeatApply in a.ctl.flags
    ensures i == |s.rounds| - 1 ==> var r := s.rounds[i];
      s.h == r.h && s.res == r.b.ctl.count && s.b == r.b.(ctl := r.b.ctl.(status := EndStatus(r.b.ctl)))
  {
    hide OneRound;
  }

  lemma BottomDone(o: Oracle, b: Action, h: History, n: nat)
    requires b.ctl.status == StatusRepeat
    ensures Bottom(o, b, h, n) ==
            if Changed(b) && RepeatApply in b.ctl.flags then Again(o, b, h, n)
            else if n == 0 then Stuck
            else Ret(b.(ctl := b.ctl.(status := EndStatus(b.ctl))), h, b.ctl.count, n - 1)
  {
    hide Again;
    assert b.(ctl := b.ctl.(status := StatusRepeat)) == b;
  }

  lemma RestedAtEnd(b: Action)
    requires Rested(b)
    ensures Quiet(b.(ctl := b.ctl.(status := EndStatus(b.ctl))))
  {
  }

  lemma {:induction false} RoundsRun(o: Oracle, a: Action, h: History, s: Step, i: nat, n: nat)
    requires a.ctl.status != StatusEnd && Performed(o, a, h, s) && i < |s.rounds|
    requires n >= 1 + RoundsCost(s.rounds[i..]) && Rested(Before(a, h, s.rounds, i).0)
    requires RepeatApply in Before(a, h, s.rounds, i).0.ctl.flags <==> RepeatApply in a.ctl.flags
    ensures Again(o, Before(a, h, s.rounds, i).0, Before(a, h, s.rounds, i).1, n) ==
            Ret(s.b, s.h, s.res, n - 1 - RoundsCost(s.rounds[i..]))
    ensures Quiet(s.b)
    decreases s, 2, |s.rounds| - i
  {
    hide Performed, OneRound, Again, Bottom, Quiet, Rested, RoundsCost, TriesCost;
    var x, h1 := Before(a, h, s.rounds, i).0, Before(a, h, s.rounds, i).1;
    var r, rest := s.rounds[i], s.rounds[i + 1..];
    FirstRoundCost(s.rounds, i);
    RoundOf(o, a, h, s, i);
    RoundRuns(o, x, h1, r, n);
    var m := n - 1 - TriesCost(r.tries);
    BottomDone(o, r.b, r.h, m);
    if i < |s.rounds| - 1 {
      RoundsRun(o, a, h, s, i + 1, m);
    } else {
      NoMoreRounds(rest);
      RestedAtEnd(r.b);
    }
  }

  lemma FirstRoundCost(rounds: seq<Round>, i: nat)
    requires i < |rounds|
    ensures RoundsCost(rounds[i..]) == 1 + TriesCost(rounds[i].tries) + RoundsCost(rounds[i + 1..])
  {
    assert rounds[i..][1..] == rounds[i + 1..];
  }

  lemma NoMoreRounds(rounds: seq<Round>)
    requires rounds == []
    ensures RoundsCost(rounds) == 0
  {
  }

  /** What apply is when it starts. */
  ghost function Started(o: Oracle, y: Action, h: History, n: nat): (r: Out)
    ensures r.Ret? ==> r.res >= -1
  {
    match y
    case Leaf(id, c) => Ret(Leaf(id, c.(count := c.count + o.gain(id, h))), h + [Applied(id)], 0, n)
    case Group(id, c, list, _) => Regroup(y, RunMembers(o, Loop(list, 0, c.count, c.breakpoint), h, n))
    case RestartGroup(id, c, list, state, max, cur) =>
      if cur == -1 then Ret(y, h, 0, n) else Actions.Restarts(o, y, true, h, n)
  }

  lemma AgainApplies(o: Oracle, a: Action, h: History, n: nat)
    requires a.ctl.status != StatusMid
    ensures Again(o, a, h, n) ==
            AfterApply(o, Started(o, a.(ctl := a.ctl.(lcount := a.ctl.count, status := StatusMid)), h, n))
  {
    hide AfterApply, RunMembers, Actions.Restarts;
    var x := a.(ctl := a.ctl.(lcount := a.ctl.count));
    var y := a.(ctl := a.ctl.(lcount := a.ctl.count, status := StatusMid));
    assert x.(ctl := x.ctl.(status := StatusMid)) == y;
    assert Again(o, a, h, n) == AfterApply(o, Apply(o, x, h, n));
    if !a.Leaf? { assert Enter(y, true) == Loop(y.list, 0, y.ctl.count, y.ctl.breakpoint); }
  }

  ghost function Applying(c: Ctl, gain: nat): Ctl {
    c.(status := StatusMid, lcount := c.count, count := c.count + gain)
  }

  lemma LeafRound(o: Oracle, a: Action, h: History, r: Round, n: nat)
    requires a.Leaf? && Rested(a) && OneRound(o, a, h, r) && n > 0
    ensures Again(o, a, h, n) == Bottom(o, r.b, r.h, n - 1) && Rested(r.b) && r.tries == []
  {
    AgainApplies(o, a, h, n);
    hide Again, Bottom, AfterApply;
    var gain := o.gain(a.id, h);
    NoteRuns(o, Leaf(a.id, Applying(a.ctl, gain)), h + [Applied(a.id)], n, a.ctl, gain);
  }

  /** A completed restart group does nothing. */
  lemma IdleRound(o: Oracle, a: Action, h: History, r: Round, n: nat)
    requires a.RestartGroup? && a.curstart == -1 && Rested(a) && OneRound(o, a, h, r) && n > 0
    ensures Again(o, a, h, n) == Bottom(o, r.b, r.h, n - 1) && Rested(r.b) && r.tries == []
  {
    AgainApplies(o, a, h, n);
    hide Again, Bottom, AfterApply, InTurn;
    NoteRuns(o, RestartGroup(a.id, Applying(a.ctl, 0), a.list, a.state, a.maxrestarts, -1), h, n, a.ctl, 0);
    assert h + [] == h;
  }

  lemma OneTryCost(t: Try)
    ensures TriesCost([t]) == StepsCost(t.steps)
  {
    assert [t][1..] == [];
  }

  lemma RestedRound(a: Action, b: Action, gain: nat)
    requires Rested(a) && b.ctl == Gained(a.ctl, gain) && (b.Leaf? || AllQuiet(b.list))
    ensures Rested(b)
  {
  }

  lemma RestedParts(a: Action)
    requires Rested(a)
    ensures a.ctl.breakpoint == {} && a.ctl.status != StatusMid && (a.Leaf? || AllQuiet(a.list))
  {
  }

  lemma {:induction false} GroupRound(o: Oracle, a: Action, h: History, r: Round, n: nat)
    requires a.Group? && Rested(a) && OneRound(o, a, h, r) && n >= 1 + TriesCost(r.tries)
    ensures Again(o, a, h, n) == Bottom(o, r.b, r.h, n - 1 - TriesCost(r.tries)) && Rested(r.b)
    decreases r, 0
  {
    hide Again, Bottom, RunMembers, AfterApply, TriesCost, StepsCost, Performed, InTurn, Rested, Quiet, Turns;
    RestedParts(a);
    AgainApplies(o, a, h, n);
    var t := r.tries[0];
    assert r.tries == [t];
    OneTryCost(t);
    var gain := Sum(t.steps);
    TryTurns(o, Loop(a.list, 0, a.ctl.count, {}), t);
    MembersRun(o, Loop(a.list, 0, a.ctl.count, {}), h, t.steps, n);
    assert a.list[..0] + Lefts(t.steps) == Lefts(t.steps);
    var z := Group(a.id, Applying(a.ctl, gain), Lefts(t.steps), |a.list|);
    NoteRuns(o, z, TryEnd(t), n - StepsCost(t.steps), a.ctl, gain);
    RestedRound(a, r.b, gain);
  }

  lemma {:induction false} RestartRound(o: Oracle, a: Action, h: History, r: Round, n: nat)
    requires a.RestartGroup? && a.curstart != -1 && Rested(a) && OneRound(o, a, h, r) && n >= 1 + TriesCost(r.tries)
    ensures Again(o, a, h, n) == Bottom(o, r.b, r.h, n - 1 - TriesCost(r.tries)) && Rested(r.b)
    decreases r, 0
  {
    hide Again, Bottom, RunMembers, AfterApply, TriesCost, StepsCost, Performed, InTurn, Rested, Quiet, Turns,
      Actions.Restarts, Tried;
    RestedParts(a);
    AgainApplies(o, a, h, n);
    var y := RestartGroup(a.id, a.ctl.(lcount := a.ctl.count, status := StatusMid), a.list, a.state, a.maxrestarts,
                          a.curstart);
    FirstTry(o, a.list, h, a.curstart, a.maxrestarts, r.tries);
    TriesRun(o, y, h, r.tries, n);
    var last, gain := r.tries[|r.tries| - 1], Total(r.tries);
    var z := RestartGroup(a.id, Applying(a.ctl, gain), Lefts(last.steps), |a.list|, a.maxrestarts, r.b.curstart);
    NoteRuns(o, z, TryEnd(last) + Exceeded(o, TryEnd(last)), n - TriesCost(r.tries), a.ctl, gain);
    RestedRound(a, r.b, gain);
  }

  /** One round, from the call of apply to the end of the loop of perform. */
  lemma {:induction false} RoundRuns(o: Oracle, a: Action, h: History, r: Round, n: nat)
    requires Rested(a) && OneRound(o, a, h, r) && n >= 1 + TriesCost(r.tries)
    ensures Again(o, a, h, n) == Bottom(o, r.b, r.h, n - 1 - TriesCost(r.tries))
    ensures Rested(r.b) && r.b.ctl.status == StatusRepeat &&
              (RepeatApply in r.b.ctl.flags <==> RepeatApply in a.ctl.flags)
    decreases r, 1
  {
    hide Again, Bottom, InTurn, Tried, Rested;
    if a.Leaf? {
      LeafRound(o, a, h, r, n);
    } else if a.Group? {
      GroupRound(o, a, h, r, n);
    } else if a.curstart == -1 {
      IdleRound(o, a, h, r, n);
    } else {
      RestartRound(o, a, h, r, n);
    }
  }

  lemma MemberCall(o: Oracle, g: Loop, h: History, n: nat, b: Action, h1: History, res: nat, m: nat)
    requires g.state < |g.list| && g.breakpoint == {} && Perform(o, g.list[g.state], h, n) == Ret(b, h1, res, m)
    ensures RunMembers(o, g, h, n) == RunMembers(o, Loop(g.list[g.state := b], g.state + 1, g.count + res, {}), h1, m)
  {
    hide Perform;
    MemberAgain(o, g, h, n);
  }

  lemma MembersDone(o: Oracle, g: Loop, h: History, n: nat)
    requires g.state == |g.list|
    ensures RunMembers(o, g, h, n) == LoopRet(g, h, 0, n)
  {
  }

  /** A try of a restart group ended. */
  lemma TryDone(o: Oracle, a: Action, h: History, n: nat, g: Loop, h1: History, m: nat)
    requires a.RestartGroup? && a.curstart >= 0 && a.ctl.breakpoint == g.breakpoint
    requires RunMembers(o, Loop(a.list, 0, a.ctl.count, a.ctl.breakpoint), h, n) == LoopRet(g, h1, 0, m)
    ensures var b := a.(ctl := a.ctl.(count := g.count), list := g.list, state := g.state);
      Actions.Restarts(o, a, true, h, n) ==
        if StartsAgain(o, h1, a.curstart, a.maxrestarts) then
          if m == 0 then Stuck
          else
            var (list, h2) := ResetAll(b.list, h1 + [Cleared]);
            Actions.Restarts(o, b.(curstart := b.curstart + 1, list := list), true, h2, m - 1)
        else Ret(b.(curstart := StartsLeft(o, h1, b.curstart)), h1 + Exceeded(o, h1), 0, m)
  {
    hide RunMembers, ResetAll;
    assert h1 + [] == h1;
    assert Enter(a, true) == Loop(a.list, 0, a.ctl.count, a.ctl.breakpoint);
    assert Actions.Restarts(o, a, true, h, n) == AfterMembers(o, a, RunMembers(o, Enter(a, true), h, n));
    assert Absorb(a, g) == a.(ctl := a.ctl.(count := g.count), list := g.list, state := g.state);
  }

  /** The calls of the members from g.state on. */
  ghost predicate Turns(o: Oracle, g: Loop, h: History, steps: seq<Step>) {
    && g.state <= |g.list| && |steps| == |g.list| - g.state && g.breakpoint == {} && AllQuiet(g.list)
    && forall k :: 0 <= k < |steps| ==> Performed(o, g.list[g.state + k], At(h, steps, k), steps[k])
  }

  lemma NextTurn(o: Oracle, g: Loop, h: History, steps: seq<Step>)
    requires Turns(o, g, h, steps)
    ensures g.state <= |g.list| && |steps| == |g.list| - g.state && g.breakpoint == {} && AllQuiet(g.list)
    ensures steps != [] ==> Quiet(g.list[g.state]) && Performed(o, g.list[g.state], h, steps[0])
  {
    hide Performed, Quiet;
    if steps != [] { assert Performed(o, g.list[g.state + 0], At(h, steps, 0), steps[0]); }
  }

  lemma QuietTurn(o: Oracle, g: Loop, h: History, steps: seq<Step>)
    requires Turns(o, g, h, steps) && steps != [] && Quiet(steps[0].b)
    ensures g.state < |g.list|
    ensures Turns(o, Loop(g.list[g.state := steps[0].b], g.state + 1, g.count + steps[0].res, {}), steps[0].h,
              steps[1..])
  {
    hide Performed, Quiet;
    var s, rest := steps[0], steps[1..];
    var g1 := Loop(g.list[g.state := s.b], g.state + 1, g.count + s.res, {});
    forall k | 0 <= k < |rest| ensures Performed(o, g1.list[g1.state + k], At(s.h, rest, k), rest[k]) {
      assert Performed(o, g.list[g.state + (k + 1)], At(h, steps, k + 1), steps[k + 1]);
    }
  }

  lemma {:induction false} MembersRun(o: Oracle, g: Loop, h: History, steps: seq<Step>, n: nat)
    requires Turns(o, g, h, steps) && n >= StepsCost(steps)
    ensures RunMembers(o, g, h, n) ==
            LoopRet(Loop(g.list[..g.state] + Lefts(steps), |g.list|, g.count + Sum(steps), {}),
                    At(h, steps, |steps|), 0, n - StepsCost(steps))
    ensures AllQuiet(g.list[..g.state] + Lefts(steps))
    decreases steps, 1
  {
    hide RunMembers, Perform, Performed, Quiet, Turns;
    NextTurn(o, g, h, steps);
    if steps == [] {
      MembersDone(o, g, h, n);
      assert g.list[..g.state] + Lefts(steps) == g.list;
      assert Loop(g.list, |g.list|, g.count + 0, {}) == g;
    } else {
      var s, rest, m := steps[0], steps[1..], n - Cost(steps[0]);
      StepRuns(o, g.list[g.state], h, s, n);
      var g1 := Loop(g.list[g.state := s.b], g.state + 1, g.count + s.res, {});
      MemberCall(o, g, h, n, s.b, s.h, s.res, m);
      QuietTurn(o, g, h, steps);
      MembersRun(o, g1, s.h, rest, m);
      assert g1.list[..g1.state] + Lefts(rest) == g.list[..g.state] + Lefts(steps);
    }
  }

  lemma TryTurns(o: Oracle, g: Loop, t: Try)
    requires InTurn(o, t) && AllQuiet(t.start) && g.list == t.start && g.state == 0 && g.breakpoint == {}
    ensures Turns(o, g, t.h, t.steps) && |t.steps| == |g.list|
  {
  }

  lemma LaterTries(o: Oracle, list: seq<Action>, h: History, cur: nat, max: int, tries: seq<Try>)
    requires Tried(o, list, h, cur, max, tries) && |tries| > 1
    ensures Tried(o, tries[1].start, tries[1].h, cur + 1, max, tries[1..])
  {
    hide InTurn, StartsAgain, Restarted;
    var u := tries[1..];
    forall k | 0 < k < |u| ensures Restarted(u[k - 1], u[k]) { assert Restarted(tries[(k + 1) - 1], tries[k + 1]); }
    forall k | 0 <= k < |u|
      ensures InTurn(o, u[k]) && (k < |u| - 1 <==> StartsAgain(o, TryEnd(u[k]), cur + 1 + k, max))
    {
      assert u[k] == tries[k + 1];
      assert InTurn(o, tries[k + 1]);
      assert k + 1 < |tries| - 1 <==> StartsAgain(o, TryEnd(tries[k + 1]), cur + (k + 1), max);
    }
  }

  /** The tries of a restart group in the middle of apply. */
  lemma {:induction false} TriesRun(o: Oracle, a: Action, h: History, tries: seq<Try>, n: nat)
    requires a.RestartGroup? && a.curstart >= 0 && a.ctl.breakpoint == {} && AllQuiet(a.list)
    requires Tried(o, a.list, h, a.curstart, a.maxrestarts, tries) && n >= TriesCost(tries)
    ensures var last := tries[|tries| - 1];
      && Actions.Restarts(o, a, true, h, n) ==
         Ret(RestartGroup(a.id, a.ctl.(count := a.ctl.count + Total(tries)), Lefts(last.steps), |a.list|, a.maxrestarts,
                          StartsLeft(o, TryEnd(last), a.curstart + |tries| - 1)),
             TryEnd(last) + Exceeded(o, TryEnd(last)), 0, n - TriesCost(tries))
      && AllQuiet(Lefts(last.steps)) && |last.steps| == |a.list|
    decreases tries, 2
  {
    hide RunMembers, Performed, Reset, ResetAll, Actions.Restarts, Quiet, Renewed, InTurn, Turns, Restarted,
      StartsAgain, StepsCost, TriesCost, StartsLeft, Exceeded, Tried, Total, AllRenewed, AllQuiet, Sum;
    FirstTry(o, a.list, h, a.curstart, a.maxrestarts, tries);
    var t := tries[0];
    TryTurns(o, Loop(a.list, 0, a.ctl.count, {}), t);
    MembersRun(o, Loop(a.list, 0, a.ctl.count, {}), h, t.steps, n);
    assert a.list[..0] + Lefts(t.steps) == Lefts(t.steps);
    var g := Loop(Lefts(t.steps), |a.list|, a.ctl.count + Sum(t.steps), {});
    var b := RestartGroup(a.id, a.ctl.(count := g.count), g.list, g.state, a.maxrestarts, a.curstart);
    TryDone(o, a, h, n, g, TryEnd(t), n - StepsCost(t.steps));
    if |tries| > 1 {
      var h1, m := TryEnd(t) + [Cleared], n - StepsCost(t.steps) - 1;
      NextTry(b, h1, t, tries[1]);
      LaterTries(o, a.list, h, a.curstart, a.maxrestarts, tries);
      TriesRun(o, b.(curstart := b.curstart + 1, list := tries[1].start), tries[1].h, tries[1..], m);
    }
  }

  lemma FirstTry(o: Oracle, list: seq<Action>, h: History, cur: nat, max: int, tries: seq<Try>)
    requires Tried(o, list, h, cur, max, tries)
    ensures |tries| > 0 && tries[0].start == list && tries[0].h == h && InTurn(o, tries[0])
    ensures StartsAgain(o, TryEnd(tries[0]), cur, max) <==> |tries| > 1
    ensures |tries| > 1 ==> Restarted(tries[0], tries[1])
    ensures TriesCost(tries) ==
            StepsCost(tries[0].steps) + if |tries| > 1 then 1 + TriesCost(tries[1..]) else 0
    ensures Total(tries) == Sum(tries[0].steps) + if |tries| > 1 then Total(tries[1..]) else 0
  {
    hide InTurn, StartsAgain, Restarted, StepsCost;
    assert StartsAgain(o, TryEnd(tries[0]), cur + 0, max) <==> 0 < |tries| - 1;
    if |tries| > 1 { assert Restarted(tries[1 - 1], tries[1]); }
  }

  lemma NextTry(b: Action, h: History, t: Try, u: Try)
    requires b.RestartGroup? && b.list == Lefts(t.steps) && AllQuiet(b.list) && h == TryEnd(t) + [Cleared]
    requires Restarted(t, u)
    ensures ResetAll(b.list, h) == (u.start, u.h) && AllQuiet(u.start) && |u.start| == |b.list|
  {
    hide ResetAll, AllQuiet;
    ResetAllRenews(b.list, h);
    AllRenewedOnce(b.list, ResetAll(b.list, h).0, u.start);
  }

  // ---------- what perform returns is a run ----------

  lemma {:induction false} FindStep(o: Oracle, a: Action, h: History, n: nat) returns (s: Step)
    requires Quiet(a) && Perform(o, a, h, n).Ret?
    ensures Performed(o, a, h, s) && Cost(s) <= n
    decreases n, Depth(a), 6
  {
    PerformStarts(o, a, h, n);
    hide Again, Perform, Quiet, Rested, RoundsCost;
    if a.ctl.status == StatusEnd {
      s := Step(a, h, 0, []);
    } else {
      var x := a.(ctl := a.ctl.(count := 0));
      var rounds := FindRounds(o, x, h, n - 1);
      var r := rounds[|rounds| - 1];
      s := Step(r.b.(ctl := r.b.ctl.(status := EndStatus(r.b.ctl))), r.h, r.b.ctl.count, rounds);
      RoundsPerform(o, a, h, s);
    }
  }

  lemma RoundsPerform(o: Oracle, a: Action, h: History, s: Step)
    requires a.ctl.status != StatusEnd && AllRounds(o, a.(ctl := a.ctl.(count := 0)), h, s.rounds)
    requires var r := s.rounds[|s.rounds| - 1];
      s.h == r.h && s.res == r.b.ctl.count && s.b == r.b.(ctl := r.b.ctl.(status := EndStatus(r.b.ctl)))
    ensures Performed(o, a, h, s)
  {
    hide OneRound;
  }

  ghost function After(a: Action, h: History, rounds: seq<Round>, i: nat): (Action, History)
    requires i <= |rounds|
  {
    if i == 0 then (a, h) else (rounds[i - 1].b, rounds[i - 1].h)
  }

  ghost predicate AllRounds(o: Oracle, a: Action, h: History, rounds: seq<Round>) {
    && |rounds| > 0
    && (forall i :: 0 <= i < |rounds| ==>
          OneRound(o, After(a, h, rounds, i).0, After(a, h, rounds, i).1, rounds[i]))
    && forall i :: 0 <= i < |rounds| ==>
         (i < |rounds| - 1 <==> Changed(rounds[i].b) && RepeatApply in a.ctl.flags)
  }

  lemma {:induction false} FindRounds(o: Oracle, a: Action, h: History, n: nat) returns (rounds: seq<Round>)
    requires Rested(a) && Again(o, a, h, n).Ret?
    ensures AllRounds(o, a, h, rounds) && 1 + RoundsCost(rounds) <= n
    decreases n, Depth(a), 4
  {
    var r := FindRound(o, a, h, n);
    RoundRuns(o, a, h, r, n);
    hide Again, OneRound, Rested;
    var m := n - 1 - TriesCost(r.tries);
    BottomDone(o, r.b, r.h, m);
    if Changed(r.b) && RepeatApply in r.b.ctl.flags {
      var rest := FindRounds(o, r.b, r.h, m);
      rounds := [r] + rest;
      MoreRounds(o, a, h, r, rest);
      assert rounds[1..] == rest;
    } else {
      rounds := [r];
      assert rounds[1..] == [];
    }
  }

  lemma MoreRounds(o: Oracle, a: Action, h: History, r: Round, rest: seq<Round>)
    requires OneRound(o, a, h, r) && AllRounds(o, r.b, r.h, rest) && Changed(r.b)
    requires RepeatApply in a.ctl.flags && RepeatApply in r.b.ctl.flags
    ensures AllRounds(o, a, h, [r] + rest)
  {
    hide OneRound;
    var rounds := [r] + rest;
    forall i | 0 <= i < |rounds|
      ensures OneRound(o, After(a, h, rounds, i).0, After(a, h, rounds, i).1, rounds[i])
      ensures i < |rounds| - 1 <==> Changed(rounds[i].b) && RepeatApply in a.ctl.flags
    {
      if i > 0 {
        assert rounds[i] == rest[i - 1];
        assert OneRound(o, After(r.b, r.h, rest, i - 1).0, After(r.b, r.h, rest, i - 1).1, rest[i - 1]);
      }
    }
  }

  lemma {:induction false} FindRound(o: Oracle, a: Action, h: History, n: nat) returns (r: Round)
    requires Rested(a) && Again(o, a, h, n).Ret?
    ensures OneRound(o, a, h, r) && 1 + TriesCost(r.tries) <= n
    decreases n, Depth(a), 3
  {
    RestedParts(a);
    AgainApplies(o, a, h, n);
    var c := a.ctl;
    if a.Leaf? {
      var gain := o.gain(a.id, h);
      r := Round(Leaf(a.id, Gained(c, gain)), h + [Applied(a.id)] + Warning(c, a.id, gain), []);
    } else if a.Group? {
      var steps := FindMembers(o, Loop(a.list, 0, c.count, {}), h, n);
      r := GroupRoundOf(o, a, h, n, steps);
    } else if a.curstart == -1 {
      r := Round(RestartGroup(a.id, Gained(c, 0), a.list, a.state, a.maxrestarts, -1), h, []);
    } else {
      var y := RestartGroup(a.id, c.(lcount := c.count, status := StatusMid), a.list, a.state, a.maxrestarts,
          a.curstart);
      var tries := FindTries(o, y, h, n);
      r := RestartRoundOf(o, a, h, n, tries);
    }
  }

  /** The calls of the members make up the round of a group. */
  lemma GroupRoundOf(o: Oracle, a: Action, h: History, n: nat, steps: seq<Step>) returns (r: Round)
    requires a.Group? && Rested(a) && Again(o, a, h, n).Ret?
    requires Turns(o, Loop(a.list, 0, a.ctl.count, {}), h, steps) && StepsCost(steps) <= n
    ensures OneRound(o, a, h, r) && 1 + TriesCost(r.tries) <= n
  {
    hide Again, AfterApply, Performed, RunMembers;
    var t := Try(a.list, h, steps);
    OneTryCost(t);
    var gain := Sum(steps);
    r := Round(Group(a.id, Gained(a.ctl, gain), Lefts(steps), |a.list|), TryEnd(t) + Warning(a.ctl, a.id, gain), [t]);
    MembersRun(o, Loop(a.list, 0, a.ctl.count, {}), h, steps, n);
    AgainApplies(o, a, h, n);
    assert InTurn(o, t) by {
      forall k | 0 <= k < |steps| ensures Performed(o, a.list[k], At(h, steps, k), steps[k]) {
        assert Performed(o, a.list[0 + k], At(h, steps, k), steps[k]);
      }
    }
  }

  lemma RestartRoundOf(o: Oracle, a: Action, h: History, n: nat, tries: seq<Try>) returns (r: Round)
    requires a.RestartGroup? && a.curstart >= 0 && Rested(a) && Again(o, a, h, n).Ret?
    requires Tried(o, a.list, h, a.curstart, a.maxrestarts, tries) && TriesCost(tries) <= n
    ensures OneRound(o, a, h, r) && 1 + TriesCost(r.tries) <= n
  {
    hide Again, AfterApply, Performed, RunMembers, Actions.Restarts, Tried, Rested;
    RestedParts(a);
    var y := RestartGroup(a.id, a.ctl.(lcount := a.ctl.count, status := StatusMid), a.list, a.state, a.maxrestarts,
                          a.curstart);
    FirstTry(o, a.list, h, a.curstart, a.maxrestarts, tries);
    var last, gain := tries[|tries| - 1], Total(tries);
    TriesRun(o, y, h, tries, n);
    var left := StartsLeft(o, TryEnd(last), a.curstart + |tries| - 1);
    r := Round(RestartGroup(a.id, Gained(a.ctl, gain), Lefts(last.steps), |a.list|, a.maxrestarts, left),
               TryEnd(last) + Exceeded(o, TryEnd(last)) + Warning(a.ctl, a.id, gain), tries);
    AgainApplies(o, a, h, n);
    NoTicks(o, Started(o, y, h, n));
  }

  /** A completed apply takes a tick. */
  lemma NoTicks(o: Oracle, q: Out)
    requires q.Ret? && q.res >= 0 && AfterApply(o, q).Ret?
    ensures q.left > 0
  {
  }

  lemma {:induction false} FindMembers(o: Oracle, g: Loop, h: History, n: nat) returns (steps: seq<Step>)
    requires g.state <= |g.list| && g.breakpoint == {} && AllQuiet(g.list) && RunMembers(o, g, h, n).LoopRet?
    ensures Turns(o, g, h, steps) && StepsCost(steps) <= n
    decreases n, 1 + MaxDepth(g.list), 1, |g.list| - g.state
  {
    hide Perform, Performed, Quiet;
    if g.state == |g.list| {
      steps := [];
    } else {
      DepthAt(g.list, g.state);
      MemberAgain(o, g, h, n);
      var s := FindStep(o, g.list[g.state], h, n);
      StepRuns(o, g.list[g.state], h, s, n);
      MemberCall(o, g, h, n, s.b, s.h, s.res, n - Cost(s));
      MemberDepth(o, g.list[g.state], h, n);
      DepthUpdate(g.list, g.state, s.b);
      var rest := FindMembers(o, Loop(g.list[g.state := s.b], g.state + 1, g.count + s.res, {}), s.h, n - Cost(s));
      steps := [s] + rest;
      assert steps[1..] == rest;
      MoreTurns(o, g, h, s, rest);
    }
  }

  lemma MemberDepth(o: Oracle, a: Action, h: History, n: nat)
    requires Perform(o, a, h, n).Ret?
    ensures Depth(Perform(o, a, h, n).a) == Depth(a)
  {
    hide Depth;
  }

  lemma TurnAt(o: Oracle, g: Loop, h: History, steps: seq<Step>, k: nat)
    requires Turns(o, g, h, steps) && k < |steps|
    ensures g.state + k < |g.list| && Performed(o, g.list[g.state + k], At(h, steps, k), steps[k])
  {
    hide Performed, AllQuiet;
  }

  /** Turn k when s comes before the rest. */
  lemma TurnWith(o: Oracle, g: Loop, h: History, s: Step, rest: seq<Step>, k: nat)
    requires g.state < |g.list| && g.breakpoint == {} && Performed(o, g.list[g.state], h, s) && k <= |rest|
    requires Turns(o, Loop(g.list[g.state := s.b], g.state + 1, g.count + s.res, {}), s.h, rest)
    ensures g.state + k < |g.list| && Performed(o, g.list[g.state + k], At(h, [s] + rest, k), ([s] + rest)[k])
  {
    hide Performed, AllQuiet, Turns;
    var g1 := Loop(g.list[g.state := s.b], g.state + 1, g.count + s.res, {});
    if k > 0 {
      TurnAt(o, g1, s.h, rest, k - 1);
      assert ([s] + rest)[k] == rest[k - 1] && ([s] + rest)[k - 1] == if k == 1 then s else rest[k - 2];
    }
  }

  lemma MoreTurns(o: Oracle, g: Loop, h: History, s: Step, rest: seq<Step>)
    requires g.state < |g.list| && g.breakpoint == {} && AllQuiet(g.list) && Performed(o, g.list[g.state], h, s)
    requires Turns(o, Loop(g.list[g.state := s.b], g.state + 1, g.count + s.res, {}), s.h, rest)
    ensures Turns(o, g, h, [s] + rest)
  {
    hide Performed, AllQuiet, At;
    forall k | 0 <= k <= |rest| ensures Performed(o, g.list[g.state + k], At(h, [s] + rest, k), ([s] + rest)[k]) {
      TurnWith(o, g, h, s, rest, k);
    }
  }

  /** The first try, and what the restart group does after it. */
  lemma {:induction false} FindTry(o: Oracle, a: Action, h: History, n: nat) returns (t: Try)
    requires a.RestartGroup? && a.curstart >= 0 && a.ctl.breakpoint == {} && AllQuiet(a.list)
    requires Actions.Restarts(o, a, true, h, n).Ret?
    ensures t.start == a.list && t.h == h && InTurn(o, t) && StepsCost(t.steps) <= n && AllQuiet(Lefts(t.steps))
    ensures var b := RestartGroup(a.id, a.ctl.(count := a.ctl.count + Sum(t.steps)), Lefts(t.steps), |a.list|,
                                  a.maxrestarts, a.curstart);
      StartsAgain(o, TryEnd(t), a.curstart, a.maxrestarts) ==>
        n > StepsCost(t.steps) &&
        var (list, h2) := ResetAll(Lefts(t.steps), TryEnd(t) + [Cleared]);
        Actions.Restarts(o, b.(curstart := b.curstart + 1, list := list), true, h2, n - StepsCost(t.steps) - 1).Ret?
    decreases n, Depth(a), 2, 0
  {
    hide RunMembers, Performed, ResetAll, Actions.Restarts, Quiet, Renewed, AllQuiet, StartsAgain, Turns;
    TryStarts(o, a, h, n);
    var g := Loop(a.list, 0, a.ctl.count, {});
    var steps := FindMembers(o, g, h, n);
    t := Try(a.list, h, steps);
    MembersRun(o, g, h, steps, n);
    NextTurn(o, g, h, steps);
    assert a.list[..0] + Lefts(steps) == Lefts(steps);
    TryDone(o, a, h, n, Loop(Lefts(steps), |a.list|, a.ctl.count + Sum(steps), {}), TryEnd(t), n - StepsCost(steps));
    TurnsInTry(o, g, t);
  }

  lemma {:induction false} FindTries(o: Oracle, a: Action, h: History, n: nat) returns (tries: seq<Try>)
    requires a.RestartGroup? && a.curstart >= 0 && a.ctl.breakpoint == {} && AllQuiet(a.list)
    requires Actions.Restarts(o, a, true, h, n).Ret?
    ensures Tried(o, a.list, h, a.curstart, a.maxrestarts, tries) && TriesCost(tries) <= n
    decreases n, Depth(a), 2, 1
  {
    hide RunMembers, Performed, ResetAll, Actions.Restarts, Quiet, Renewed, AllQuiet, Restarted, StartsAgain, Tried,
      InTurn;
    var t := FindTry(o, a, h, n);
    OneTryCost(t);
    if StartsAgain(o, TryEnd(t), a.curstart, a.maxrestarts) {
      var h1 := TryEnd(t) + [Cleared];
      var list, h2 := ResetAll(Lefts(t.steps), h1).0, ResetAll(Lefts(t.steps), h1).1;
      ResetAllRenews(Lefts(t.steps), h1);
      var c := a.ctl.(count := a.ctl.count + Sum(t.steps));
      var b := RestartGroup(a.id, c, list, |a.list|, a.maxrestarts, a.curstart + 1);
      var rest := FindTries(o, b, h2, n - StepsCost(t.steps) - 1);
      FirstTry(o, list, h2, a.curstart + 1, a.maxrestarts, rest);
      NowRestarted(t, rest[0]);
      MoreTries(o, a.list, h, a.curstart, a.maxrestarts, t, rest);
      tries := [t] + rest;
      assert tries[1..] == rest;
    } else {
      tries := [t];
      LastTry(o, a.list, h, a.curstart, a.maxrestarts, t);
    }
  }

  lemma TryStarts(o: Oracle, a: Action, h: History, n: nat)
    requires a.RestartGroup? && a.curstart >= 0 && Actions.Restarts(o, a, true, h, n).Ret?
    ensures RunMembers(o, Loop(a.list, 0, a.ctl.count, a.ctl.breakpoint), h, n).LoopRet?
  {
    hide RunMembers;
    assert Enter(a, true) == Loop(a.list, 0, a.ctl.count, a.ctl.breakpoint);
  }

  lemma TurnsInTry(o: Oracle, g: Loop, t: Try)
    requires g.list == t.start && g.state == 0 && Turns(o, g, t.h, t.steps)
    ensures InTurn(o, t)
  {
    hide Performed;
    forall k | 0 <= k < |t.steps| ensures Performed(o, t.start[k], At(t.h, t.steps, k), t.steps[k]) {
      assert Performed(o, g.list[g.state + k], At(t.h, t.steps, k), t.steps[k]);
    }
  }

  lemma NowRestarted(t: Try, u: Try)
    requires AllRenewed(Lefts(t.steps), u.start) && u.h == TryEnd(t) + [Cleared] + AllResets(Lefts(t.steps))
    ensures Restarted(t, u)
  {
  }

  lemma LastTry(o: Oracle, list: seq<Action>, h: History, cur: nat, max: int, t: Try)
    requires t.start == list && t.h == h && InTurn(o, t) && !StartsAgain(o, TryEnd(t), cur, max)
    ensures Tried(o, list, h, cur, max, [t])
  {
    hide InTurn;
  }

  lemma MoreTries(o: Oracle, list: seq<Action>, h: History, cur: nat, max: int, t: Try, rest: seq<Try>)
    requires t.start == list && t.h == h && InTurn(o, t) && StartsAgain(o, TryEnd(t), cur, max)
    requires |rest| > 0 && Tried(o, rest[0].start, rest[0].h, cur + 1, max, rest) && Restarted(t, rest[0])
    ensures Tried(o, list, h, cur, max, [t] + rest)
  {
    hide InTurn, StartsAgain, Restarted;
    var tries := [t] + rest;
    forall k | 0 < k < |tries| ensures Restarted(tries[k - 1], tries[k]) {
      if k > 1 { assert Restarted(rest[(k - 1) - 1], rest[k - 1]); }
    }
    forall k | 0 <= k < |tries|
      ensures InTurn(o, tries[k]) && (k < |tries| - 1 <==> StartsAgain(o, TryEnd(tries[k]), cur + k, max))
    {
      if k > 0 {
        assert InTurn(o, rest[k - 1]);
        assert k - 1 < |rest| - 1 <==> StartsAgain(o, TryEnd(rest[k - 1]), cur + 1 + (k - 1), max);
      }
    }
  }

  // ---------- the main results ----------

  /** r is a run that takes no more than n ticks, or there is none. */
  ghost predicate RunWithin(o: Oracle, a: Action, h: History, n: nat, r: Out) {
    match r
    case Stuck => forall s :: Performed(o, a, h, s) ==> Cost(s) > n
    case Ret(b, h1, res, left) => exists s :: Performed(o, a, h, s) && s.b == b && s.h == h1 && s.res == res &&
                                              left == n - Cost(s)
  }

  /** Perform returns the run, within n ticks, if there is one. */
  lemma PerformIsRun(o: Oracle, a: Action, h: History, n: nat)
    requires Quiet(a)
    ensures RunWithin(o, a, h, n, Perform(o, a, h, n))
    ensures forall r :: RunWithin(o, a, h, n, r) ==> r == Perform(o, a, h, n)
  {
    hide Perform, Performed, Cost;
    forall s | Performed(o, a, h, s) && Cost(s) <= n
      ensures Perform(o, a, h, n) == Ret(s.b, s.h, s.res, n - Cost(s))
    {
      StepRuns(o, a, h, s, n);
    }
    if Perform(o, a, h, n).Ret? {
      var s := FindStep(o, a, h, n);
    }
  }

  /** With break points, calling perform until it does not stop there makes the run that there is without them. */
  lemma ResumedIsRun(o: Oracle, a: Action, h: History, n: nat)
    requires Quiet(Strip(a))
    ensures RunWithin(o, Strip(a), h, n, Stripped(Resumed(o, a, h, n)))
  {
    hide Perform, RunWithin, Strip;
    ResumedIsUninterrupted(o, a, h, n);
    PerformIsRun(o, Strip(a), h, n);
  }

  /** So it is for every action that has been reset. */
  lemma {:induction false} ResetIsQuiet(a: Action, h: History)
    ensures Quiet(Strip(Reset(a, h).0))
    decreases a, 0
  {
    if !a.Leaf? { ResetAllIsQuiet(a.list, h); }
  }

  lemma {:induction false} ResetAllIsQuiet(list: seq<Action>, h: History)
    ensures forall b :: b in ResetAll(list, h).0 ==> Quiet(Strip(b))
    decreases list
  {
    if list != [] {
      var (b, h1) := Reset(list[0], h);
      ResetIsQuiet(list[0], h);
      ResetAllIsQuiet(list[1..], h1);
    }
  }

  /** A leaf that neither repeats nor warns. */
  ghost predicate Plain(a: Action) {
    a.Leaf? && a.ctl.status == StatusStart && a.ctl.flags == {}
  }

  ghost function Applications(list: seq<Action>): History {
    seq(|list|, i requires 0 <= i < |list| => Applied(list[i].id))
  }

  ghost function Times(h: History, n: nat): History {
    if n == 0 then [] else Times(h, n - 1) + h
  }

  lemma PlainStep(o: Oracle, a: Action, h: History, s: Step)
    requires Plain(a) && Performed(o, a, h, s)
    ensures s.h == h + [Applied(a.id)] && s.res == o.gain(a.id, h) && Plain(s.b) && s.b.id == a.id
  {
    RoundOf(o, a, h, s, 0);
    RoundOf(o, a, h, s, |s.rounds| - 1);
    assert |s.rounds| == 1;
  }

  ghost predicate AllPlain(list: seq<Action>) {
    forall i :: 0 <= i < |list| ==> Plain(list[i])
  }

  lemma TurnOf(o: Oracle, t: Try, k: nat)
    requires InTurn(o, t) && k < |t.steps|
    ensures k < |t.start| == |t.steps| && Performed(o, t.start[k], At(t.h, t.steps, k), t.steps[k])
  {
    hide Performed;
  }

  lemma {:induction false} PlainTurn(o: Oracle, t: Try, k: nat)
    requires InTurn(o, t) && k <= |t.steps| == |t.start| && AllPlain(t.start)
    ensures At(t.h, t.steps, k) == t.h + Applications(t.start)[..k]
    ensures forall i :: 0 <= i < k ==> Plain(t.steps[i].b) && t.steps[i].b.id == t.start[i].id
  {
    hide InTurn, Performed, Plain;
    if k > 0 {
      PlainTurn(o, t, k - 1);
      TurnOf(o, t, k - 1);
      PlainStep(o, t.start[k - 1], At(t.h, t.steps, k - 1), t.steps[k - 1]);
      assert Applications(t.start)[..k] == Applications(t.start)[..k - 1] + [Applied(t.start[k - 1].id)];
      assert t.h + Applications(t.start)[..k - 1] + [Applied(t.start[k - 1].id)] == t.h + Applications(t.start)[..k];
    }
  }

  lemma PlainRound(o: Oracle, a: Action, h: History, r: Round)
    requires a.Group? && WarningsOn !in a.ctl.flags && OneRound(o, a, h, r) && AllPlain(a.list)
    ensures r.b.Group? && WarningsOn !in r.b.ctl.flags && AllPlain(r.b.list) && r.h == h + Applications(a.list)
    ensures Applications(r.b.list) == Applications(a.list)
  {
    hide InTurn, Plain, Performed;
    var t := r.tries[0];
    TrySize(o, t);
    PlainTurn(o, t, |t.steps|);
    assert Applications(t.start)[..|t.steps|] == Applications(a.list);
    assert h + Applications(a.list) + [] == h + Applications(a.list);
  }

  lemma TrySize(o: Oracle, t: Try)
    requires InTurn(o, t)
    ensures |t.steps| == |t.start|
  {
  }

  lemma {:induction false} PlainRounds(o: Oracle, a: Action, h: History, s: Step, i: nat)
    requires a.Group? && a.ctl.status != StatusEnd && WarningsOn !in a.ctl.flags && Performed(o, a, h, s)
    requires AllPlain(a.list) && i <= |s.rounds|
    ensures var (b, h1) := Before(a, h, s.rounds, i);
      && b.Group? && WarningsOn !in b.ctl.flags && AllPlain(b.list) && Applications(b.list) == Applications(a.list)
      && h1 == h + Times(Applications(a.list), i)
  {
    hide Performed, OneRound, AllPlain, Applications;
    if i > 0 {
      PlainRounds(o, a, h, s, i - 1);
      RoundOf(o, a, h, s, i - 1);
      PlainRound(o, Before(a, h, s.rounds, i - 1).0, Before(a, h, s.rounds, i - 1).1, s.rounds[i - 1]);
      var x, y := Times(Applications(a.list), i - 1), Applications(a.list);
      assert h + x + y == h + (x + y);
    } else {
      assert h + [] == h;
    }
  }

  /** Every round of a group of plain leaves applies each of them once, in order. */
  lemma LeavesInOrder(o: Oracle, a: Action, h: History, s: Step)
    requires a.Group? && a.ctl.status != StatusEnd && WarningsOn !in a.ctl.flags && Performed(o, a, h, s)
    requires AllPlain(a.list)
    ensures s.h == h + Times(Applications(a.list), |s.rounds|)
  {
    PlainRounds(o, a, h, s, |s.rounds|);
    RoundOf(o, a, h, s, |s.rounds| - 1);
  }
}
