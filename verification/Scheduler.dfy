/** Action::perform, ActionGroup::apply and ActionRestartGroup::apply on the action objects themselves: each method
    leaves its action, the history of the function and the ticks as the functions of Actions say. */
module Scheduler {

  import opened Actions
  import Runs

  datatype Kind = Single | Grouped | Restarting(maxrestarts: int)

  /** All actions, a member of a group being an action with a smaller number. */
  datatype Tables = Tables(kind: seq<Kind>, list: seq<seq<nat>>, ctl: seq<Ctl>, state: seq<nat>, curstart: seq<Starts>)

  ghost predicate Sized(t: Tables) {
    && |t.kind| == |t.list| == |t.ctl| == |t.state| == |t.curstart|
    && forall a, i :: 0 <= a < |t.list| && 0 <= i < |t.list[a]| ==> t.list[a][i] < a
  }

  /** The action and everything in it. */
  ghost function Below(list: seq<seq<nat>>, a: nat): set<nat>
    requires forall b, i :: 0 <= b < |list| && 0 <= i < |list[b]| ==> list[b][i] < b
    decreases a
  {
    {a} + if a < |list| then set i, b | 0 <= i < |list[a]| && b in Below(list, list[a][i]) :: b else {}
  }

  /** No action is in two groups, or twice in one. */
  ghost predicate Nested(t: Tables) {
    && Sized(t)
    && forall a, i, j :: 0 <= a < |t.list| && 0 <= i < j < |t.list[a]| ==>
         Below(t.list, t.list[a][i]) !! Below(t.list, t.list[a][j])
  }

  ghost function Value(t: Tables, a: nat): Action
    requires Sized(t) && a < |t.kind|
    decreases a
  {
    match t.kind[a]
    case Single => Leaf(a, t.ctl[a])
    case Grouped => Group(a, t.ctl[a], seq(|t.list[a]|, i requires 0 <= i < |t.list[a]| => Value(t, t.list[a][i])),
        t.state[a])
    case Restarting(max) =>
      RestartGroup(a, t.ctl[a], seq(|t.list[a]|, i requires 0 <= i < |t.list[a]| => Value(t, t.list[a][i])), t.state[a],
          max,
                   t.curstart[a])
  }

  /** The members of a group. */
  ghost function Values(t: Tables, a: nat): (r: seq<Action>)
    requires Sized(t) && a < |t.kind|
    ensures |r| == |t.list[a]|
  {
    seq(|t.list[a]|, i requires 0 <= i < |t.list[a]| => Value(t, t.list[a][i]))
  }

  lemma {:induction false} BelowIsSmaller(list: seq<seq<nat>>, a: nat, b: nat)
    requires forall c, i :: 0 <= c < |list| && 0 <= i < |list[c]| ==> list[c][i] < c
    requires b in Below(list, a)
    ensures b <= a
    decreases a
  {
    if b != a {
      var i :| 0 <= i < |list[a]| && b in Below(list, list[a][i]);
      BelowIsSmaller(list, list[a][i], b);
    }
  }

  /** The two differ in the rows of the given actions at most. */
  ghost predicate Within(t: Tables, u: Tables, some: set<nat>) {
    && u.kind == t.kind && u.list == t.list && |u.ctl| == |t.ctl| && |u.state| == |t.state| &&
       |u.curstart| == |t.curstart|
    && forall b :: 0 <= b < |t.ctl| && b < |t.state| && b < |t.curstart| && b !in some ==>
         u.ctl[b] == t.ctl[b] && u.state[b] == t.state[b] && u.curstart[b] == t.curstart[b]
  }

  /** An action none of whose rows changed is the same. */
  lemma {:induction false} Untouched(t: Tables, u: Tables, some: set<nat>, a: nat)
    requires Nested(t) && Within(t, u, some) && a < |t.kind| && Below(t.list, a) !! some
    ensures Value(u, a) == Value(t, a)
    decreases a
  {
    assert a in Below(t.list, a);
    forall i | 0 <= i < |t.list[a]| ensures Value(u, t.list[a][i]) == Value(t, t.list[a][i]) {
      forall b | b in Below(t.list, t.list[a][i]) ensures b in Below(t.list, a) {}
      Untouched(t, u, some, t.list[a][i]);
    }
    assert Values(u, a) == Values(t, a);
  }

  /** A member of a group changed: the others are the same. */
  lemma MemberChanged(t: Tables, u: Tables, a: nat, k: nat)
    requires Nested(t) && a < |t.kind| && k < |t.list[a]| && Within(t, u, Below(t.list, t.list[a][k]))
    ensures Nested(u) && Values(u, a) == Values(t, a)[k := Value(u, t.list[a][k])]
    ensures Within(t, u, Below(t.list, a)) && u.ctl[a] == t.ctl[a] && u.state[a] == t.state[a] &&
              u.curstart[a] == t.curstart[a]
  {
    var c := t.list[a][k];
    forall i | 0 <= i < |t.list[a]| && i != k ensures Value(u, t.list[a][i]) == Value(t, t.list[a][i]) {
      assert Below(t.list, t.list[a][i]) !! Below(t.list, c) by {
        if i < k { assert Below(t.list, t.list[a][i]) !! Below(t.list, t.list[a][k]); }
        else { assert Below(t.list, t.list[a][k]) !! Below(t.list, t.list[a][i]); }
      }
      Untouched(t, u, Below(t.list, c), t.list[a][i]);
    }
    forall b | b in Below(t.list, c) ensures b in Below(t.list, a) {}
    if a in Below(t.list, c) { BelowIsSmaller(t.list, c, a); }
    assert Values(u, a) == Values(t, a)[k := Value(u, c)];
  }

  /** The row of a group changed, but none of its members. */
  lemma RowChanged(t: Tables, u: Tables, a: nat)
    requires Nested(t) && a < |t.kind| && Within(t, u, {a})
    ensures Nested(u) && Values(u, a) == Values(t, a) && Within(t, u, Below(t.list, a))
  {
    forall i | 0 <= i < |t.list[a]| ensures Value(u, t.list[a][i]) == Value(t, t.list[a][i]) {
      if a in Below(t.list, t.list[a][i]) { BelowIsSmaller(t.list, t.list[a][i], a); }
      Untouched(t, u, {a}, t.list[a][i]);
    }
    assert Values(u, a) == Values(t, a);
  }

  lemma WithinBoth(t: Tables, u: Tables, v: Tables, some: set<nat>)
    requires Within(t, u, some) && Within(u, v, some)
    ensures Within(t, v, some)
  {
  }

  /** What a call of perform or apply left is what r says; without ticks left, r says nothing. */
  ghost predicate Left(r: Out, t: Tables, a: nat, h: History, ticks: nat, stuck: bool, res: int)
    requires Sized(t) && a < |t.kind|
  {
    if stuck then r.Stuck? else r == Ret(Value(t, a), h, res, ticks)
  }

  /** The same for apply, which does not set the status. */
  ghost predicate LeftOpen(r: Out, t: Tables, a: nat, h: History, ticks: nat, stuck: bool, res: int)
    requires Sized(t) && a < |t.kind|
  {
    if stuck then r.Stuck? else r == Ret(Started(Value(t, a)), h, res, ticks)
  }

  ghost function Started(a: Action): Action {
    a.(ctl := a.ctl.(status := StatusMid))
  }

  ghost function LoopOf(t: Tables, a: nat): Loop
    requires Sized(t) && a < |t.kind|
  {
    Loop(Values(t, a), t.state[a], t.ctl[a].count, t.ctl[a].breakpoint)
  }

  ghost predicate LoopLeft(r: LoopOut, t: Tables, a: nat, h: History, ticks: nat, stuck: bool, res: int)
    requires Sized(t) && a < |t.kind|
  {
    if stuck then r.LoopStuck? else r == LoopRet(LoopOf(t, a), h, res, ticks)
  }

  /** What a group does next, by what its current member returned. */
  lemma MemberDone(o: Oracle, g: Loop, h: History, n: nat)
    requires g.state < |g.list|
    ensures match Actions.Perform(o, g.list[g.state], h, n)
      case Stuck => RunMembers(o, g, h, n) == LoopStuck
      case Ret(b, h1, res, m) =>
        var g1 := g.(list := g.list[g.state := b]);
        var g2 := g1.(count := g.count + if res > 0 then res else 0, state := g.state + 1);
        RunMembers(o, g, h, n) ==
          if res < 0 then LoopRet(g1, h1, -1, m)
          else if res > 0 && ActionBreak(g.breakpoint) then
            LoopRet(g2.(breakpoint := g.breakpoint - {TmpBreakAction}), h1, -1, m)
          else RunMembers(o, g2, h1, m)
  {
    var q := Actions.Perform(o, g.list[g.state], h, n);
    assert RunMembers(o, g, h, n) == AfterMember(o, g, q);
    if q.Ret? && q.res == 0 {
      var g1 := g.(list := g.list[g.state := q.a]);
      assert g1.(count := g1.count + q.res, state := g1.state + 1) == g1.(count := g.count, state := g.state + 1);
    }
  }

  lemma NestedSizes(t: Tables)
    requires Nested(t)
    ensures Sized(t) && |t.kind| == |t.list| == |t.ctl| == |t.state| == |t.curstart|
  {
  }

  lemma MemberSize(t: Tables, a: nat, k: nat)
    requires Sized(t) && a < |t.kind| && k < |t.list[a]|
    ensures t.list[a][k] < a && |Values(t, a)| == |t.list[a]| && Values(t, a)[k] == Value(t, t.list[a][k])
  {
  }

  lemma EnterValue(t: Tables, a: nat)
    requires Sized(t) && a < |t.kind| && !t.kind[a].Single?
    ensures var v := Value(t, a);
              !v.Leaf? && v.id == a && v.ctl == t.ctl[a] && v.list == Values(t, a) && v.state == t.state[a]
  {
  }

  lemma RestartValue(t: Tables, a: nat)
    requires Sized(t) && a < |t.kind| && t.kind[a].Restarting?
    ensures Value(t, a) == RestartGroup(a, t.ctl[a], Values(t, a), t.state[a], t.kind[a].maxrestarts, t.curstart[a])
  {
  }

  /** The first i members of all were reset, which made of them and h what l and h1 are. */
  ghost predicate ResetUpTo(all: seq<Action>, i: nat, h: History, l: seq<Action>, h1: History) {
    && i <= |all| == |l| && l[i..] == all[i..]
    && ResetAll(all[..i], h) == (l[..i], h1)
  }

  lemma ResetNone(all: seq<Action>, h: History)
    ensures ResetUpTo(all, 0, h, all, h)
  {
    assert all[..0] == [];
  }

  lemma ResetDone(all: seq<Action>, h: History, l: seq<Action>, h1: History)
    requires ResetUpTo(all, |all|, h, l, h1)
    ensures ResetAll(all, h) == (l, h1)
  {
    assert all[..|all|] == all && l[..|all|] == l;
  }

  lemma ResetOne(all: seq<Action>, i: nat, h: History, l: seq<Action>, h1: History)
    requires i < |all| && ResetUpTo(all, i, h, l, h1)
    ensures var r := Actions.Reset(l[i], h1); ResetUpTo(all, i + 1, h, l[i := r.0], r.1)
  {
    var r := Actions.Reset(l[i], h1);
    assert l[i] == l[i..][0] == all[i..][0] == all[i];
    ResetMore(all[..i], all[i], h);
    assert all[..i + 1] == all[..i] + [all[i]];
    assert l[i := r.0][..i + 1] == l[..i] + [r.0];
    assert l[i := r.0][i + 1..] == l[i..][1..] == all[i..][1..];
  }

  lemma {:induction false} ResetMore(list: seq<Action>, b: Action, h: History)
    ensures var (l, h1) := ResetAll(list, h);
      ResetAll(list + [b], h) == (l + [Actions.Reset(b, h1).0], Actions.Reset(b, h1).1)
  {
    if list == [] {
      assert list + [b] == [b] && [b][1..] == [];
      var (c, h1) := Actions.Reset(b, h);
      assert ResetAll([b], h) == ([c] + [], h1);
      assert [] + [c] == [c] + [];
    } else {
      var (c, h1) := Actions.Reset(list[0], h);
      var (l, h2) := ResetAll(list[1..], h1);
      ResetMore(list[1..], b, h1);
      assert (list + [b])[1..] == list[1..] + [b] && (list + [b])[0] == list[0];
      assert [c] + (l + [Actions.Reset(b, h2).0]) == ([c] + l) + [Actions.Reset(b, h2).0];
    }
  }

  /** One round of a restart group ended. */
  lemma RoundDone(o: Oracle, t: Tables, u: Tables, a: nat, starting: bool, h: History, n: nat, h1: History, m: nat,
                  stuck: bool, res: int)
    requires Sized(t) && Sized(u) && u.kind == t.kind && a < |t.kind| && t.kind[a].Restarting? && t.curstart[a] >= 0
    requires LoopLeft(RunMembers(o, Enter(Value(t, a), starting), h, n), u, a, h1, m, stuck, res)
    requires u.ctl[a] == t.ctl[a].(count := u.ctl[a].count, breakpoint := u.ctl[a].breakpoint)
    requires u.curstart[a] == t.curstart[a]
    ensures !stuck ==> -1 <= res <= 0
    ensures var cur, l := u.curstart[a], Values(u, a);
      Restarts(o, Round(t, a, t.curstart[a], Values(t, a)), starting, h, n) ==
        if stuck then Stuck
        else if res != 0 then Ret(Round(u, a, cur, l), h1, res, m)
        else if !o.restartPending(h1) then Ret(Round(u, a, -1, l), h1, 0, m)
        else if o.jumptableRecovery(h1) then Ret(Round(u, a, cur, l), h1, 0, m)
        else if cur + 1 > u.kind[a].maxrestarts then Ret(Round(u, a, -1, l), h1 + [RestartsExceeded], 0, m)
        else if m == 0 then Stuck
        else
          var (list, h2) := ResetAll(l, h1 + [Cleared]);
          Restarts(o, Round(u, a, cur + 1, list), true, h2, m - 1)
  {
    hide RunMembers, ResetAll, Restarts, Values;
    RestartValue(t, a);
    RestartValue(u, a);
    var b := Round(t, a, t.curstart[a], Values(t, a));
    assert Enter(b, starting) == Enter(Value(t, a), starting);
    RestartsStep(o, b, starting, h, n);
    if !stuck { assert Absorb(b, LoopOf(u, a)) == Round(u, a, u.curstart[a], Values(u, a)); }
  }

  /** A restart group in the middle of apply. */
  ghost function Round(t: Tables, a: nat, cur: Starts, l: seq<Action>): (r: Action)
    requires Sized(t) && a < |t.kind| && t.kind[a].Restarting?
    ensures r.RestartGroup? && r.curstart == cur
  {
    RestartGroup(a, t.ctl[a].(status := StatusMid), l, t.state[a], t.kind[a].maxrestarts, cur)
  }

  lemma RestartStarts(o: Oracle, t: Tables, a: nat, h: History, n: nat)
    requires Sized(t) && a < |t.kind| && t.kind[a].Restarting?
    ensures Actions.Apply(o, Value(t, a), h, n) ==
      if t.curstart[a] == -1 then Ret(Started(Value(t, a)), h, 0, n)
      else Restarts(o, Round(t, a, t.curstart[a], Values(t, a)), t.ctl[a].status != StatusMid, h, n)
  {
    hide Restarts, Values;
    RestartValue(t, a);
  }

  lemma GroupLeft(o: Oracle, t: Tables, u: Tables, a: nat, h: History, n: nat, h1: History, m: nat, stuck: bool,
                  res: int)
    requires Sized(t) && Sized(u) && u.kind == t.kind && a < |t.kind| && t.kind[a].Grouped?
    requires LoopLeft(RunMembers(o, Enter(Value(t, a), t.ctl[a].status != StatusMid), h, n), u, a, h1, m, stuck, res)
    requires u.ctl[a] == t.ctl[a].(count := u.ctl[a].count, breakpoint := u.ctl[a].breakpoint)
    ensures LeftOpen(Actions.Apply(o, Value(t, a), h, n), u, a, h1, m, stuck, res)
  {
    hide RunMembers, Values;
    GroupValue(t, a);
    GroupValue(u, a);
    var b := Started(Value(t, a));
    var starting := t.ctl[a].status != StatusMid;
    assert Enter(b, starting) == Enter(Value(t, a), starting);
    assert Actions.Apply(o, Value(t, a), h, n) == Regroup(b, RunMembers(o, Enter(b, starting), h, n));
    if !stuck { assert Absorb(b, LoopOf(u, a)) == Started(Value(u, a)); }
  }

  lemma GroupValue(t: Tables, a: nat)
    requires Sized(t) && a < |t.kind| && t.kind[a].Grouped?
    ensures Value(t, a) == Group(a, t.ctl[a], Values(t, a), t.state[a])
  {
  }

  /** The common fields of the action changed, and nothing else. */
  lemma CtlChanged(t: Tables, u: Tables, a: nat)
    requires Nested(t) && a < |t.kind| && u == t.(ctl := u.ctl) && |u.ctl| == |t.ctl|
    requires forall b :: 0 <= b < |t.ctl| && b != a ==> u.ctl[b] == t.ctl[b]
    ensures Nested(u) && Within(t, u, Below(t.list, a)) && Value(u, a) == Value(t, a).(ctl := u.ctl[a])
    ensures Value(t, a).ctl == t.ctl[a] && Value(t, a).id == a
  {
    RowChanged(t, u, a);
    if t.kind[a].Grouped? {
      GroupValue(t, a);
      GroupValue(u, a);
    } else if t.kind[a].Restarting? {
      RestartValue(t, a);
      RestartValue(u, a);
    }
  }

  /** How perform begins, up to the call of apply. */
  lemma Begins(o: Oracle, v: Action, h: History, n: nat)
    ensures var c := v.ctl;
      Actions.Perform(o, v, h, n) == match c.status
        case StatusStart =>
          if n == 0 then Stuck
          else if StartBreak(c) then
            Ret(v.(ctl := c.(count := 0, status := BreakStartHit, breakpoint := c.breakpoint - {TmpBreakStart})), h, -1,
                n - 1)
          else Continue(o, v.(ctl := c.(count := 0, lcount := 0)), h, n - 1)
        case BreakStartHit => Continue(o, v.(ctl := c.(lcount := c.count)), h, n)
        case StatusRepeat => Continue(o, v.(ctl := c.(lcount := c.count)), h, n)
        case StatusMid => Continue(o, v, h, n)
        case StatusEnd => Ret(v, h, 0, n)
        case StatusActionBreak => Bottom(o, v, h, n)
  {
    hide Continue, Bottom;
    var c := v.ctl;
    if c.status == StatusStart && n > 0 && !StartBreak(c) {
      assert Again(o, v.(ctl := c.(count := 0)), h, n - 1) ==
        Continue(o, v.(ctl := c.(count := 0, lcount := 0)), h, n - 1);
    }
  }

  /** What perform does after apply. */
  lemma Applies(o: Oracle, v: Action, h: History, n: nat)
    ensures match Actions.Apply(o, v, h, n)
      case Stuck => Continue(o, v, h, n).Stuck?
      case Ret(b, h1, res, m) =>
        var (c, h2) := NoteApplied(b, h1);
        Continue(o, v, h, n) ==
          if res < 0 then Ret(b, h1, res, m)
          else if m == 0 then Stuck
          else if b.ctl.lcount < b.ctl.count then
            if ActionBreak(c.ctl.breakpoint) then
              Ret(c.(ctl := c.ctl.(breakpoint := c.ctl.breakpoint - {TmpBreakAction}, status := StatusActionBreak)), h2,
                  -1,
                  m - 1)
            else Bottom(o, c, h2, m - 1)
          else Bottom(o, b, h1, m - 1)
  {
    hide Bottom, Actions.Apply, NoteApplied;
    assert Continue(o, v, h, n) == AfterApply(o, Actions.Apply(o, v, h, n));
  }

  /** How a round of perform ends. */
  lemma Ends(o: Oracle, v: Action, h: History, n: nat)
    ensures var b := v.(ctl := v.ctl.(status := StatusRepeat));
      var ends := OncePerFunc in b.ctl.flags || (OneActPerFunc in b.ctl.flags && b.ctl.count > 0);
      Bottom(o, v, h, n) ==
        if b.ctl.lcount < b.ctl.count && RepeatApply in b.ctl.flags then Actions.Perform(o, b, h, n)
        else if n == 0 then Stuck
        else Ret(b.(ctl := b.ctl.(status := if ends then StatusEnd else StatusStart)), h, b.ctl.count, n - 1)
  {
    hide Continue;
    var b := v.(ctl := v.ctl.(status := StatusRepeat));
    assert Actions.Perform(o, b, h, n) == Again(o, b, h, n);
  }

  /** The end of a round does not depend on the status. */
  lemma StatusAside(o: Oracle, v: Action, h: History, n: nat)
    ensures Bottom(o, Started(v), h, n) == Bottom(o, v, h, n)
  {
    hide Actions.Perform;
    Ends(o, v, h, n);
    Ends(o, Started(v), h, n);
  }

  lemma RestartsStep(o: Oracle, a: Action, starting: bool, h: History, n: nat)
    requires a.RestartGroup? && a.curstart >= 0
    ensures Restarts(o, a, starting, h, n) == AfterMembers(o, a, RunMembers(o, Enter(a, starting), h, n))
  {
  }

  lemma NoneLeft(o: Oracle, g: Loop, h: History, n: nat)
    requires g.state >= |g.list|
    ensures RunMembers(o, g, h, n) == LoopRet(g, h, 0, n)
  {
  }

  class ActionTree {

    const kind: seq<Kind>
    const list: seq<seq<nat>>
    var ctl: seq<Ctl>
    var state: seq<nat>
    var curstart: seq<Starts>
    var history: History
    var ticks: nat

    constructor (kind: seq<Kind>, list: seq<seq<nat>>, ctl: seq<Ctl>, ticks: nat)
      requires Nested(Tables(kind, list, ctl, seq(|ctl|, i => 0), seq(|ctl|, i => 0)))
      ensures T() == Tables(kind, list, ctl, seq(|ctl|, i => 0), seq(|ctl|, i => 0)) && history == [] &&
                this.ticks == ticks
    {
      this.kind, this.list, this.ctl, this.ticks, history := kind, list, ctl, ticks, [];
      state, curstart := seq(|ctl|, i => 0), seq(|ctl|, i => 0);
    }

    ghost function T(): Tables
      reads this
    {
      Tables(kind, list, ctl, state, curstart)
    }

    method CheckStartBreak(a: nat) returns (hit: bool)
      requires a < |ctl|
      modifies this`ctl
      ensures hit == StartBreak(old(ctl[a]))
      ensures ctl == if hit then old(ctl)[a := old(ctl[a]).(breakpoint := old(ctl[a]).breakpoint - {TmpBreakStart})]
                     else old(ctl)
    {
      hit := BreakStart in ctl[a].breakpoint || TmpBreakStart in ctl[a].breakpoint;
      if hit {
        ctl := ctl[a := ctl[a].(breakpoint := ctl[a].breakpoint - {TmpBreakStart})];
      }
    }

    method CheckActionBreak(a: nat) returns (hit: bool)
      requires a < |ctl|
      modifies this`ctl
      ensures hit == ActionBreak(old(ctl[a].breakpoint))
      ensures ctl == if hit then old(ctl)[a := old(ctl[a]).(breakpoint := old(ctl[a]).breakpoint - {TmpBreakAction})]
                     else old(ctl)
    {
      hit := BreakAction in ctl[a].breakpoint || TmpBreakAction in ctl[a].breakpoint;
      if hit {
        ctl := ctl[a := ctl[a].(breakpoint := ctl[a].breakpoint - {TmpBreakAction})];
      }
    }

    method IssueWarning(a: nat)
      requires a < |ctl|
      modifies this`ctl, this`history
      ensures var warn := WarningsOn in old(ctl[a].flags) && WarningsGiven !in old(ctl[a].flags);
        ctl == (if warn then old(ctl)[a := old(ctl[a]).(flags := old(ctl[a]).flags + {WarningsGiven})] else old(ctl)) &&
        history == if warn then old(history) + [Warned(a)] else old(history)
    {
      if WarningsOn in ctl[a].flags && WarningsGiven !in ctl[a].flags {
        ctl := ctl[a := ctl[a].(flags := ctl[a].flags + {WarningsGiven})];
        history := history + [Warned(a)];
      }
    }

    /** A member is done; its changes, if it made any, count for the group and may be a break point. */
    method CountChange(a: nat, res: int) returns (hit: bool)
      requires Nested(T()) && a < |kind| && res >= 0
      modifies this`ctl, this`state
      ensures Nested(T()) && Within(old(T()), T(), Below(list, a))
      ensures hit == (res > 0 && ActionBreak(old(ctl[a].breakpoint)))
      ensures var g := old(LoopOf(T(), a));
        LoopOf(T(), a) == Loop(g.list, g.state + 1, g.count + res,
                               if hit then g.breakpoint - {TmpBreakAction} else g.breakpoint)
      ensures ctl[a] == old(ctl[a]).(count := ctl[a].count, breakpoint := ctl[a].breakpoint) &&
                curstart == old(curstart)
    {
      hide ActionBreak, Nested, Below, Value;
      NestedSizes(T());
      ghost var t := T();
      hit := false;
      if res > 0 {
        ctl := ctl[a := ctl[a].(count := ctl[a].count + res)];
        hit := CheckActionBreak(a);
      }
      state := state[a := state[a] + 1];
      RowChanged(t, T(), a);
    }

    /** ActionGroup::apply */
    method GroupApply(o: Oracle, a: nat) returns (stuck: bool, res: int)
      requires Nested(T()) && a < |kind| && !kind[a].Single?
      modifies this`ctl, this`state, this`curstart, this`history, this`ticks
      ensures Nested(T()) && Within(old(T()), T(), Below(list, a)) && ticks <= old(ticks)
      ensures LoopLeft(RunMembers(o, Enter(old(Value(T(), a)), old(ctl[a].status) != StatusMid), old(history),
                old(ticks)),
                       T(), a, history, ticks, stuck, res)
      ensures ctl[a] == old(ctl[a]).(count := ctl[a].count, breakpoint := ctl[a].breakpoint) &&
                curstart[a] == old(curstart[a])
      decreases ticks, a, 0
    {
      hide RunMembers, AfterMember, Actions.Perform, Below, Values, Nested, ActionBreak, Value;
      NestedSizes(T());
      EnterValue(T(), a);
      ghost var t0 := T();
      if ctl[a].status != StatusMid {
        state := state[a := 0];
      }
      RowChanged(t0, T(), a);
      stuck, res := false, 0;
      while state[a] < |list[a]|
        invariant Nested(T()) && Within(t0, T(), Below(list, a)) && ticks <= old(ticks)
        invariant RunMembers(o, LoopOf(T(), a), history, ticks) ==
                  RunMembers(o, Enter(Value(t0, a), t0.ctl[a].status != StatusMid), old(history), old(ticks))
        invariant ctl[a] == t0.ctl[a].(count := ctl[a].count, breakpoint := ctl[a].breakpoint)
        invariant curstart[a] == t0.curstart[a]
        decreases |list[a]| - state[a]
      {
        ghost var t1, h1, n1 := T(), history, ticks;
        MemberDone(o, LoopOf(t1, a), history, ticks);
        MemberSize(t1, a, state[a]);
        stuck, res := Perform(o, list[a][state[a]]);
        MemberChanged(t1, T(), a, t1.state[a]);
        WithinBoth(t0, t1, T(), Below(list, a));
        if stuck { return; }
        if res < 0 { return false, -1; }
        ghost var t2 := T();
        var hit := CountChange(a, res);
        WithinBoth(t0, t2, T(), Below(list, a));
        if hit { return false, -1; }
      }
      NoneLeft(o, LoopOf(T(), a), history, ticks);
      res := 0;
    }

    /** The reset methods. */
    method ResetAction(a: nat)
      requires Nested(T()) && a < |kind|
      modifies this`ctl, this`state, this`curstart, this`history
      ensures Nested(T()) && Within(old(T()), T(), Below(list, a))
      ensures (Value(T(), a), history) == Actions.Reset(old(Value(T(), a)), old(history))
      decreases a, 1
    {
      hide ResetAll, Below, Nested;
      NestedSizes(T());
      ghost var t0 := T();
      if kind[a].Restarting? { curstart := curstart[a := 0]; }
      ctl := ctl[a := ctl[a].(status := StatusStart, flags := ctl[a].flags - {WarningsGiven})];
      RowChanged(t0, T(), a);
      ghost var t1 := T();
      if kind[a].Single? {
        history := history + [WasReset(a)];
      } else {
        ResetMembers(a);
        WithinBoth(t0, t1, T(), Below(list, a));
      }
    }

    method ResetMembers(a: nat)
      requires Nested(T()) && a < |kind|
      modifies this`ctl, this`state, this`curstart, this`history
      ensures Nested(T()) && Within(old(T()), T(), Below(list, a))
      ensures ctl[a] == old(ctl[a]) && state[a] == old(state[a]) && curstart[a] == old(curstart[a])
      ensures (Values(T(), a), history) == ResetAll(old(Values(T(), a)), old(history))
      decreases a, 0
    {
      hide Below, Nested, Values, Value, Actions.Reset, ResetAll;
      NestedSizes(T());
      ghost var t0, h0 := T(), history;
      ResetNone(Values(t0, a), h0);
      for i := 0 to |list[a]|
        invariant Nested(T()) && Within(t0, T(), Below(list, a))
        invariant ctl[a] == t0.ctl[a] && state[a] == t0.state[a] && curstart[a] == t0.curstart[a]
        invariant ResetUpTo(Values(t0, a), i, h0, Values(T(), a), history)
      {
        ghost var t1, h1 := T(), history;
        MemberSize(t1, a, i);
        ResetAction(list[a][i]);
        MemberChanged(t1, T(), a, i);
        WithinBoth(t0, t1, T(), Below(list, a));
        ResetOne(Values(t0, a), i, h0, Values(t1, a), h1);
      }
      ResetDone(Values(t0, a), h0, Values(T(), a), history);
    }

    /** One round of the loop of ActionRestartGroup::apply. */
    method RestartRound(o: Oracle, a: nat) returns (done: bool, stuck: bool, res: int)
      requires Nested(T()) && a < |kind| && kind[a].Restarting? && curstart[a] >= 0
      modifies this`ctl, this`state, this`curstart, this`history, this`ticks
      ensures Nested(T()) && Within(old(T()), T(), Below(list, a)) && ticks <= old(ticks)
      ensures var r := Restarts(o, old(Round(T(), a, curstart[a], Values(T(), a))), old(ctl[a].status) != StatusMid,
                                old(history), old(ticks));
        if done then LeftOpen(r, T(), a, history, ticks, stuck, res)
        else ticks < old(ticks) && curstart[a] >= 0 && ctl[a].status != StatusMid &&
             r == Restarts(o, Round(T(), a, curstart[a], Values(T(), a)), true, history, ticks)
      decreases ticks, a, 1
    {
      hide Below, Nested, Values, RunMembers, ResetAll, Restarts, Value;
      NestedSizes(T());
      ghost var t0, h0, n0 := T(), history, ticks;
      done, stuck, res := true, false, 0;
      stuck, res := GroupApply(o, a);
      RestartValue(T(), a);
      RoundDone(o, t0, T(), a, t0.ctl[a].status != StatusMid, h0, n0, history, ticks, stuck, res);
      if stuck || res != 0 { return; }
      ghost var t1 := T();
      if !o.restartPending(history) {
        EndRestarts(a);
        WithinBoth(t0, t1, T(), Below(list, a));
        return;
      }
      if o.jumptableRecovery(history) { return; }
      if curstart[a] + 1 > kind[a].maxrestarts {
        history := history + [RestartsExceeded];
        EndRestarts(a);
        WithinBoth(t0, t1, T(), Below(list, a));
        return;
      }
      if ticks == 0 { return true, true, 0; }
      ticks := ticks - 1;
      BeginAgain(a);
      WithinBoth(t0, t1, T(), Below(list, a));
      done := false;
    }

    /** The group is completed. */
    method EndRestarts(a: nat)
      requires Nested(T()) && a < |kind| && kind[a].Restarting?
      modifies this`curstart
      ensures Nested(T()) && Within(old(T()), T(), Below(list, a))
      ensures Started(Value(T(), a)) == Round(old(T()), a, -1, old(Values(T(), a)))
    {
      hide Below, Nested, Values, Value;
      NestedSizes(T());
      ghost var t := T();
      curstart := curstart[a := -1];
      RowChanged(t, T(), a);
      RestartValue(T(), a);
    }

    /** Another round, from the first member on. */
    method BeginAgain(a: nat)
      requires Nested(T()) && a < |kind| && kind[a].Restarting? && curstart[a] >= 0
      modifies this`ctl, this`state, this`curstart, this`history
      ensures Nested(T()) && Within(old(T()), T(), Below(list, a)) && ctl[a].status != StatusMid
      ensures curstart[a] == old(curstart[a]) + 1
      ensures var (l, h) := ResetAll(old(Values(T(), a)), old(history) + [Cleared]);
        history == h && Round(T(), a, curstart[a], Values(T(), a)) == Round(old(T()), a, curstart[a], l)
    {
      hide Below, Nested, Values, ResetAll, Value;
      NestedSizes(T());
      ghost var t0 := T();
      curstart := curstart[a := curstart[a] + 1];
      RowChanged(t0, T(), a);
      ghost var t1 := T();
      history := history + [Cleared];
      ResetMembers(a);
      WithinBoth(t0, t1, T(), Below(list, a));
      ghost var t2 := T();
      ctl := ctl[a := ctl[a].(status := StatusStart)];
      RowChanged(t2, T(), a);
      WithinBoth(t0, t2, T(), Below(list, a));
    }

    /** ActionRestartGroup::apply */
    method RestartApply(o: Oracle, a: nat) returns (stuck: bool, res: int)
      requires Nested(T()) && a < |kind| && kind[a].Restarting?
      modifies this`ctl, this`state, this`curstart, this`history, this`ticks
      ensures Nested(T()) && Within(old(T()), T(), Below(list, a)) && ticks <= old(ticks)
      ensures LeftOpen(Actions.Apply(o, old(Value(T(), a)), old(history), old(ticks)), T(), a, history, ticks, stuck,
                res)
      decreases ticks, a, 2
    {
      hide Below, Nested, Values, Restarts, Value;
      NestedSizes(T());
      ghost var t0 := T();
      RestartValue(T(), a);
      RestartStarts(o, T(), a, history, ticks);
      stuck, res := false, 0;
      if curstart[a] == -1 { return; }
      var done := false;
      while !done
        invariant Nested(T()) && Within(t0, T(), Below(list, a)) && ticks <= old(ticks)
        invariant var r := Actions.Apply(o, old(Value(T(), a)), old(history), old(ticks));
          if done then LeftOpen(r, T(), a, history, ticks, stuck, res)
          else curstart[a] >= 0 &&
               r == Restarts(o, Round(T(), a, curstart[a], Values(T(), a)), ctl[a].status != StatusMid, history, ticks)
        decreases !done, ticks
      {
        ghost var t1 := T();
        done, stuck, res := RestartRound(o, a);
        WithinBoth(t0, t1, T(), Below(list, a));
      }
    }

    /** One call of apply, by the kind of action. */
    method Apply(o: Oracle, a: nat) returns (stuck: bool, res: int)
      requires Nested(T()) && a < |kind|
      modifies this`ctl, this`state, this`curstart, this`history, this`ticks
      ensures Nested(T()) && Within(old(T()), T(), Below(list, a)) && ticks <= old(ticks)
      ensures LeftOpen(Actions.Apply(o, old(Value(T(), a)), old(history), old(ticks)), T(), a, history, ticks, stuck,
                res)
      decreases ticks, a, 3
    {
      hide Below, Nested, Values, RunMembers, Restarts;
      NestedSizes(T());
      ghost var t := T();
      match kind[a] {
        case Single =>
          ctl := ctl[a := ctl[a].(count := ctl[a].count + o.gain(a, history))];
          history := history + [Applied(a)];
          RowChanged(t, T(), a);
          stuck, res := false, 0;
        case Grouped =>
          stuck, res := GroupApply(o, a);
          GroupLeft(o, t, T(), a, old(history), old(ticks), history, ticks, stuck, res);
        case Restarting(_) =>
          stuck, res := RestartApply(o, a);
      }
    }

    /** Action::perform; the ticks are spent as Actions.Perform spends them. */
    method Perform(o: Oracle, a: nat) returns (stuck: bool, res: int)
      requires Nested(T()) && a < |kind|
      modifies this`ctl, this`state, this`curstart, this`history, this`ticks
      ensures Nested(T()) && Within(old(T()), T(), Below(list, a)) && ticks <= old(ticks)
      ensures Left(Actions.Perform(o, old(Value(T(), a)), old(history), old(ticks)), T(), a, history, ticks, stuck, res)
      decreases ticks, a, 6
    {
      hide Below, Nested, Values, Value, Actions.Perform, Actions.Apply;
      NestedSizes(T());
      ghost var t0 := T();
      var done := false;
      stuck, res := false, 0;
      while !done
        invariant Nested(T()) && Within(t0, T(), Below(list, a)) && ticks <= old(ticks)
        invariant var r := Actions.Perform(o, old(Value(T(), a)), old(history), old(ticks));
          if done then Left(r, T(), a, history, ticks, stuck, res)
          else r == Actions.Perform(o, Value(T(), a), history, ticks)
        decreases !done, ticks, ctl[a].status == StatusActionBreak
      {
        ghost var t1 := T();
        done, stuck, res := PerformRound(o, a);
        WithinBoth(t0, t1, T(), Below(list, a));
      }
    }

    /** Perform up to the call of apply; false if it returns before. */
    method Begin(o: Oracle, a: nat) returns (goes: bool, stuck: bool)
      requires Nested(T()) && a < |kind| && ctl[a].status != StatusEnd && ctl[a].status != StatusActionBreak
      modifies this`ctl, this`ticks
      ensures Nested(T()) && Within(old(T()), T(), Below(list, a)) && ticks <= old(ticks)
      ensures var r := Actions.Perform(o, old(Value(T(), a)), old(history), old(ticks));
        if goes then r == Continue(o, Value(T(), a), history, ticks)
        else Left(r, T(), a, history, ticks, stuck, -1)
    {
      hide Below, Nested, Values, Value, Actions.Perform, Continue, Bottom;
      NestedSizes(T());
      ghost var t := T();
      CtlChanged(t, t, a);
      Begins(o, Value(t, a), history, ticks);
      if ctl[a].status == StatusStart {
        ctl := ctl[a := ctl[a].(count := 0)];
        if ticks == 0 {
          CtlChanged(t, T(), a);
          return false, true;
        }
        ticks := ticks - 1;
        var hit := CheckStartBreak(a);
        if hit {
          ctl := ctl[a := ctl[a].(status := BreakStartHit)];
          CtlChanged(t, T(), a);
          return false, false;
        }
      }
      if ctl[a].status != StatusMid {
        ctl := ctl[a := ctl[a].(lcount := ctl[a].count)];
      }
      CtlChanged(t, T(), a);
      goes, stuck := true, false;
    }

    /** Perform up to and with the call of apply; false if it returns then. */
    method ApplyOnce(o: Oracle, a: nat) returns (goes: bool, stuck: bool, res: int)
      requires Nested(T()) && a < |kind| && ctl[a].status != StatusEnd && ctl[a].status != StatusActionBreak
      modifies this`ctl, this`state, this`curstart, this`history, this`ticks
      ensures Nested(T()) && Within(old(T()), T(), Below(list, a)) && ticks <= old(ticks)
      ensures var r := Actions.Perform(o, old(Value(T(), a)), old(history), old(ticks));
        if goes then r == Bottom(o, Value(T(), a), history, ticks) && ticks < old(ticks)
        else Left(r, T(), a, history, ticks, stuck, res)
      decreases ticks, a, 4
    {
      hide Below, Nested, Values, Value, Actions.Perform, Actions.Apply, Continue, Bottom;
      NestedSizes(T());
      ghost var t0 := T();
      goes, stuck := Begin(o, a);
      res := -1;
      if !goes { return; }
      goes := false;
      ghost var t1 := T();
      Applies(o, Value(T(), a), history, ticks);
      stuck, res := Apply(o, a);
      WithinBoth(t0, t1, T(), Below(list, a));
      if stuck { return; }
      ghost var t2 := T();
      CtlChanged(t2, t2, a);
      if res < 0 {
        ctl := ctl[a := ctl[a].(status := StatusMid)];
        CtlChanged(t2, T(), a);
        WithinBoth(t0, t2, T(), Below(list, a));
        return;
      }
      if ticks == 0 { return false, true, 0; }
      ticks := ticks - 1;
      goes := true;
      StatusAside(o, Value(t2, a), history, ticks);
      if ctl[a].lcount < ctl[a].count {
        goes := Note(o, a);
        WithinBoth(t0, t2, T(), Below(list, a));
        res := -1;
      }
    }

    /** The action made changes; false if that is a break point. */
    method Note(o: Oracle, a: nat) returns (goes: bool)
      requires Nested(T()) && a < |kind|
      modifies this`ctl, this`history
      ensures Nested(T()) && Within(old(T()), T(), Below(list, a))
      ensures var (c, h) := NoteApplied(Started(old(Value(T(), a))), old(history));
        goes == !ActionBreak(c.ctl.breakpoint) && history == h &&
        (goes ==> Bottom(o, Value(T(), a), history, ticks) == Bottom(o, c, history, ticks)) &&
        (!goes ==> Value(T(), a) ==
                   c.(ctl := c.ctl.(breakpoint := c.ctl.breakpoint - {TmpBreakAction}, status := StatusActionBreak)))
    {
      hide Below, Nested, Values, Value, Bottom;
      NestedSizes(T());
      ghost var t := T();
      CtlChanged(t, t, a);
      IssueWarning(a);
      ctl := ctl[a := ctl[a].(applied := ctl[a].applied + 1)];
      CtlChanged(t, T(), a);
      StatusAside(o, Value(T(), a), history, ticks);
      var hit := CheckActionBreak(a);
      if hit { ctl := ctl[a := ctl[a].(status := StatusActionBreak)]; }
      CtlChanged(t, T(), a);
      goes := !hit;
    }

    /** The end of the loop of perform: another round, or the count. */
    method FinishRound(o: Oracle, a: nat) returns (done: bool, stuck: bool, res: int)
      requires Nested(T()) && a < |kind|
      modifies this`ctl, this`ticks
      ensures Nested(T()) && Within(old(T()), T(), Below(list, a)) && ticks <= old(ticks)
      ensures var r := Bottom(o, old(Value(T(), a)), old(history), old(ticks));
        if done then Left(r, T(), a, history, ticks, stuck, res)
        else ctl[a].status == StatusRepeat && ticks == old(ticks) &&
             r == Actions.Perform(o, Value(T(), a), history, ticks)
    {
      hide Below, Nested, Values, Value, Actions.Perform, Bottom;
      NestedSizes(T());
      ghost var t := T();
      CtlChanged(t, t, a);
      Ends(o, Value(t, a), history, ticks);
      done, stuck, res := true, false, 0;
      ctl := ctl[a := ctl[a].(status := StatusRepeat)];
      CtlChanged(t, T(), a);
      if ctl[a].lcount < ctl[a].count && RepeatApply in ctl[a].flags { return false, false, 0; }
      if ticks == 0 { return true, true, 0; }
      ticks := ticks - 1;
      if OncePerFunc in ctl[a].flags || OneActPerFunc in ctl[a].flags {
        if ctl[a].count > 0 || OncePerFunc in ctl[a].flags {
          ctl := ctl[a := ctl[a].(status := StatusEnd)];
        } else {
          ctl := ctl[a := ctl[a].(status := StatusStart)];
        }
      } else {
        ctl := ctl[a := ctl[a].(status := StatusStart)];
      }
      CtlChanged(t, T(), a);
      res := ctl[a].count;
    }

    /** One round of the loop of perform. */
    method PerformRound(o: Oracle, a: nat) returns (done: bool, stuck: bool, res: int)
      requires Nested(T()) && a < |kind|
      modifies this`ctl, this`state, this`curstart, this`history, this`ticks
      ensures Nested(T()) && Within(old(T()), T(), Below(list, a)) && ticks <= old(ticks)
      ensures var r := Actions.Perform(o, old(Value(T(), a)), old(history), old(ticks));
        if done then Left(r, T(), a, history, ticks, stuck, res)
        else r == Actions.Perform(o, Value(T(), a), history, ticks) && ctl[a].status == StatusRepeat &&
             (ticks < old(ticks) || old(ctl[a].status) == StatusActionBreak)
      decreases ticks, a, 5
    {
      hide Below, Nested, Values, Value, Actions.Perform, Actions.Apply;
      NestedSizes(T());
      CtlChanged(T(), T(), a);
      Begins(o, Value(T(), a), history, ticks);
      done, stuck, res := true, false, 0;
      if ctl[a].status == StatusEnd { return; }
      if ctl[a].status != StatusActionBreak {
        var goes;
        goes, stuck, res := ApplyOnce(o, a);
        if !goes { return; }
      }
      ghost var t1 := T();
      done, stuck, res := FinishRound(o, a);
      WithinBoth(old(T()), t1, T(), Below(list, a));
    }

    /** Calls perform until it no longer stops at a break point. What is left is what one call without any break points
        leaves, but for the break points still set. */
    method RunToEnd(o: Oracle, a: nat) returns (stuck: bool, res: int)
      requires Nested(T()) && a < |kind|
      modifies this`ctl, this`state, this`curstart, this`history, this`ticks
      ensures Nested(T()) && Within(old(T()), T(), Below(list, a)) && ticks <= old(ticks)
      ensures var r := Actions.Perform(o, Strip(old(Value(T(), a))), old(history), old(ticks));
        if stuck then r.Stuck? else r == Ret(Strip(Value(T(), a)), history, res, ticks) && res >= 0
      ensures Runs.Quiet(Strip(old(Value(T(), a)))) ==>
        Runs.RunWithin(o, Strip(old(Value(T(), a))), old(history), old(ticks),
                       if stuck then Stuck else Ret(Strip(Value(T(), a)), history, res, ticks))
    {
      hide Below, Nested, Values, Value, Actions.Perform, Strip, Runs.RunWithin, Runs.Quiet;
      ghost var t0 := T();
      NestedSizes(T());
      ResumedIsUninterrupted(o, Value(T(), a), history, ticks);
      ghost var v0, h0, n0 := Strip(Value(T(), a)), history, ticks;
      stuck, res := Perform(o, a);
      while !stuck && res < 0
        invariant Nested(T()) && Within(t0, T(), Below(list, a)) && ticks <= old(ticks)
        invariant if stuck then Resumed(o, old(Value(T(), a)), old(history), old(ticks)).Stuck?
                  else Resumed(o, old(Value(T(), a)), old(history), old(ticks)) ==
                       if res < 0 then Resumed(o, Value(T(), a), history, ticks)
                       else Ret(Value(T(), a), history, res, ticks)
        invariant !stuck && res < 0 ==> ticks < old(ticks)
        decreases ticks, !stuck && res < 0
      {
        ghost var t1 := T();
        stuck, res := Perform(o, a);
        WithinBoth(t0, t1, T(), Below(list, a));
      }
      if Runs.Quiet(v0) { Runs.PerformIsRun(o, v0, h0, n0); }
    }
  }
}
