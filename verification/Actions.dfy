/** The action scheduler: actions, groups and restart groups that can be stopped at break points and resumed.
    A function under analysis is represented by the history of what was done to it; what a leaf action changes and
    whether a restart is pending may depend on that whole history. Ticks bound a run: repeating actions
    need not stop. */
module Actions {

  datatype Status = StatusStart | BreakStartHit | StatusRepeat | StatusMid | StatusEnd | StatusActionBreak

  datatype ActionFlag = RepeatApply | OncePerFunc | OneActPerFunc | WarningsOn | WarningsGiven

  datatype BreakFlag = BreakStart | TmpBreakStart | BreakAction | TmpBreakAction

  datatype Event = Applied(id: nat) | WasReset(id: nat) | Warned(id: nat) | Cleared | RestartsExceeded

  type History = seq<Event>

  /** What is known of the function: the changes a leaf would make to it, and the two questions restart groups ask. */
  datatype Oracle = Oracle(gain: (nat, History) -> nat, restartPending: History -> bool,
                           jumptableRecovery: History -> bool)

  /** The fields of the base class. */
  datatype Ctl = Ctl(status: Status, count: nat, lcount: nat, flags: set<ActionFlag>, breakpoint: set<BreakFlag>,
                     applied: nat)

  type Starts = c: int | c >= -1

  datatype Action =
    | Leaf(id: nat, ctl: Ctl)
    | Group(id: nat, ctl: Ctl, list: seq<Action>, state: nat)
    | RestartGroup(id: nat, ctl: Ctl, list: seq<Action>, state: nat, maxrestarts: int, curstart: Starts)

  /** The result of perform or apply: the action afterwards, the history, the count (-1: stopped at a break point)
      and the ticks left; or no result within the ticks. */
  datatype Out = Stuck | Ret(a: Action, h: History, res: int, left: nat)

  /** What a group needs while it runs its members. */
  datatype Loop = Loop(list: seq<Action>, state: nat, count: nat, breakpoint: set<BreakFlag>)

  datatype LoopOut = LoopStuck | LoopRet(g: Loop, h: History, res: int, left: nat)

  // ---------- nesting depth ----------

  ghost function Depth(a: Action): nat {
    if a.Leaf? then 0 else 1 + MaxDepth(a.list)
  }

  ghost function MaxDepth(list: seq<Action>): nat {
    if list == [] then 0 else if Depth(list[0]) > MaxDepth(list[1..]) then Depth(list[0]) else MaxDepth(list[1..])
  }

  lemma {:induction false} DepthAt(list: seq<Action>, i: nat)
    requires i < |list|
    ensures Depth(list[i]) <= MaxDepth(list)
  {
    if i > 0 { DepthAt(list[1..], i - 1); }
  }

  lemma {:induction false} DepthUpdate(list: seq<Action>, i: nat, b: Action)
    requires i < |list| && Depth(b) == Depth(list[i])
    ensures MaxDepth(list[i := b]) == MaxDepth(list)
  {
    if i > 0 {
      assert list[i := b][1..] == list[1..][i - 1 := b];
      DepthUpdate(list[1..], i - 1, b);
    }
  }

  // ---------- the scheduler ----------

  predicate StartBreak(c: Ctl) {
    BreakStart in c.breakpoint || TmpBreakStart in c.breakpoint
  }

  predicate ActionBreak(breakpoint: set<BreakFlag>) {
    BreakAction in breakpoint || TmpBreakAction in breakpoint
  }

  /** One tick for a start, for a completed apply, for a restart and for a return. */
  function Perform(o: Oracle, a: Action, h: History, n: nat): (r: Out)
    ensures r.Ret? ==> r.left <= n && Depth(r.a) == Depth(a) && r.res >= -1 && (r.res != 0 ==> r.left < n)
    decreases n, Depth(a), 6, 0
  {
    match a.ctl.status
    case StatusStart =>
      if n == 0 then Stuck
      else if StartBreak(a.ctl) then
        Ret(a.(ctl := a.ctl.(count := 0, status := BreakStartHit, breakpoint := a.ctl.breakpoint - {TmpBreakStart})), h,
            -1, n - 1)
      else Again(o, a.(ctl := a.ctl.(count := 0)), h, n - 1)
    case BreakStartHit => Again(o, a, h, n)
    case StatusRepeat => Again(o, a, h, n)
    case StatusMid => Continue(o, a, h, n)
    case StatusEnd => Ret(a, h, 0, n)
    case StatusActionBreak => Bottom(o, a, h, n)
  }

  function Again(o: Oracle, a: Action, h: History, n: nat): (r: Out)
    ensures r.Ret? ==> r.left <= n && Depth(r.a) == Depth(a) && r.res >= -1 && r.left < n
    decreases n, Depth(a), 4, 1
  {
    Continue(o, a.(ctl := a.ctl.(lcount := a.ctl.count)), h, n)
  }

  /** The body of the loop of perform from the call of apply on. */
  function Continue(o: Oracle, a: Action, h: History, n: nat): (r: Out)
    ensures r.Ret? ==> r.left <= n && Depth(r.a) == Depth(a) && r.res >= -1 && r.left < n
    decreases n, Depth(a), 4, 0
  {
    AfterApply(o, Apply(o, a, h, n))
  }

  function AfterApply(o: Oracle, q: Out): (r: Out)
    requires q.Ret? ==> q.res >= -1
    ensures r.Ret? ==>
              q.Ret? && r.left <= q.left && Depth(r.a) == Depth(q.a) && r.res >= -1 && (q.res < 0 ==> r == q) &&
              (q.res >= 0 ==> r.left < q.left)
    decreases if q.Ret? then q.left else 0, if q.Ret? then Depth(q.a) else 0, 3, 1
  {
    match q
    case Stuck => Stuck
    case Ret(b, h, res, m) =>
      if res < 0 then q
      else if m == 0 then Stuck
      else if b.ctl.lcount < b.ctl.count then
        var (c, h1) := NoteApplied(b, h);
        if ActionBreak(c.ctl.breakpoint) then
          Ret(c.(ctl := c.ctl.(breakpoint := c.ctl.breakpoint - {TmpBreakAction}, status := StatusActionBreak)), h1, -1,
              m - 1)
        else Bottom(o, c, h1, m - 1)
      else Bottom(o, b, h, m - 1)
  }

  /** The warning, once, and the number of applications. */
  function NoteApplied(b: Action, h: History): (r: (Action, History))
    ensures Depth(r.0) == Depth(b)
  {
    var warn := WarningsOn in b.ctl.flags && WarningsGiven !in b.ctl.flags;
    (b.(ctl := b.ctl.(applied := b.ctl.applied + 1, flags := if warn then b.ctl.flags + {WarningsGiven}
        else b.ctl.flags)),
     if warn then h + [Warned(b.id)] else h)
  }

  /** The end of the loop of perform: go round again or return. */
  function Bottom(o: Oracle, a: Action, h: History, n: nat): (r: Out)
    ensures r.Ret? ==> r.left <= n && Depth(r.a) == Depth(a) && r.res >= -1 && r.left < n
    decreases n, Depth(a), 5, 0
  {
    var b := a.(ctl := a.ctl.(status := StatusRepeat));
    if b.ctl.lcount < b.ctl.count && RepeatApply in b.ctl.flags then Again(o, b, h, n)
    else if n == 0 then Stuck
    else
      var ends := OncePerFunc in b.ctl.flags || (OneActPerFunc in b.ctl.flags && b.ctl.count > 0);
      Ret(b.(ctl := b.ctl.(status := if ends then StatusEnd else StatusStart)), h, b.ctl.count, n - 1)
  }

  /** One call of apply. Perform overwrites the status in any case, so the result carries StatusMid. */
  function Apply(o: Oracle, a: Action, h: History, n: nat): (r: Out)
    ensures r.Ret? ==>
              r.left <= n && Depth(r.a) == Depth(a) && r.a.id == a.id && r.a.ctl.status == StatusMid &&
              -1 <= r.res <= 0 && (r.res != 0 ==> r.left < n)
    decreases n, Depth(a), 3, 2
  {
    var starting := a.ctl.status != StatusMid;
    var b := a.(ctl := a.ctl.(status := StatusMid));
    match b
    case Leaf(id, c) => Ret(Leaf(id, c.(count := c.count + o.gain(id, h))), h + [Applied(id)], 0, n)
    case Group(id, c, list, state) => Regroup(b, RunMembers(o, Enter(b, starting), h, n))
    case RestartGroup(id, c, list, state, maxrestarts, curstart) =>
      if curstart == -1 then Ret(b, h, 0, n) else Restarts(o, b, starting, h, n)
  }

  function Enter(a: Action, starting: bool): Loop
    requires !a.Leaf?
  {
    Loop(a.list, if starting then 0 else a.state, a.ctl.count, a.ctl.breakpoint)
  }

  function Absorb(a: Action, g: Loop): Action
    requires !a.Leaf?
  {
    a.(ctl := a.ctl.(count := g.count, breakpoint := g.breakpoint), list := g.list, state := g.state)
  }

  function Regroup(a: Action, r: LoopOut): Out
    requires !a.Leaf?
  {
    match r
    case LoopStuck => Stuck
    case LoopRet(g, h, res, m) => Ret(Absorb(a, g), h, res, m)
  }

  /** ActionGroup::apply from the current member on. */
  function RunMembers(o: Oracle, g: Loop, h: History, n: nat): (r: LoopOut)
    ensures r.LoopRet? ==>
              r.left <= n && MaxDepth(r.g.list) == MaxDepth(g.list) && -1 <= r.res <= 0 && (r.res != 0 ==> r.left < n)
    decreases n, 1 + MaxDepth(g.list), 1, 2 * (|g.list| - g.state)
  {
    if g.state >= |g.list| then LoopRet(g, h, 0, n)
    else
      DepthAt(g.list, g.state);
      AfterMember(o, g, Perform(o, g.list[g.state], h, n))
  }

  function AfterMember(o: Oracle, g: Loop, q: Out): (r: LoopOut)
    requires g.state < |g.list| && (q.Ret? ==> q.res >= -1 && Depth(q.a) == Depth(g.list[g.state]))
    ensures r.LoopRet? ==> q.Ret? && r.left <= q.left && MaxDepth(r.g.list) == MaxDepth(g.list) && -1 <= r.res <= 0
    ensures r.LoopRet? && r.res != 0 ==> q.res != 0 || r.left < q.left
    decreases if q.Ret? then q.left else 0, 1 + MaxDepth(g.list), 1, 2 * (|g.list| - g.state) - 1
  {
    match q
    case Stuck => LoopStuck
    case Ret(b, h, res, m) =>
      DepthUpdate(g.list, g.state, b);
      var g1 := g.(list := g.list[g.state := b]);
      if res < 0 then LoopRet(g1, h, -1, m)
      else
        var g2 := g1.(count := g1.count + res, state := g1.state + 1);
        if res > 0 && ActionBreak(g2.breakpoint) then LoopRet(g2.(breakpoint := g2.breakpoint - {TmpBreakAction}), h,
            -1, m)
        else RunMembers(o, g2, h, m)
  }

  /** ActionRestartGroup::apply once it is known not to be completed. */
  function Restarts(o: Oracle, a: Action, starting: bool, h: History, n: nat): (r: Out)
    requires a.RestartGroup? && a.curstart >= 0
    ensures r.Ret? ==>
              r.left <= n && Depth(r.a) == Depth(a) && r.a.id == a.id && -1 <= r.res <= 0 && (r.res != 0 ==> r.left < n)
    ensures r.Ret? ==> r.a.RestartGroup? && (r.res < 0 ==> r.a.curstart >= 0) && r.a.ctl.status == a.ctl.status
    decreases n, Depth(a), 2, 1
  {
    AfterMembers(o, a, RunMembers(o, Enter(a, starting), h, n))
  }

  function AfterMembers(o: Oracle, a: Action, q: LoopOut): (r: Out)
    requires a.RestartGroup? && a.curstart >= 0 &&
               (q.LoopRet? ==> -1 <= q.res <= 0 && MaxDepth(q.g.list) == MaxDepth(a.list))
    ensures r.Ret? ==> q.LoopRet? && r.left <= q.left && Depth(r.a) == Depth(a) && r.a.id == a.id && -1 <= r.res <= 0
    ensures r.Ret? && r.res != 0 ==> q.res != 0 || r.left < q.left
    ensures r.Ret? ==> r.a.RestartGroup? && (r.res < 0 ==> r.a.curstart >= 0) && r.a.ctl.status == a.ctl.status
    decreases if q.LoopRet? then q.left else 0, Depth(a), 2, 0
  {
    match q
    case LoopStuck => Stuck
    case LoopRet(g, h, res, m) =>
      var b := Absorb(a, g);
      if res != 0 then Ret(b, h, res, m)
      else if !o.restartPending(h) then Ret(b.(curstart := -1), h, 0, m)
      else if o.jumptableRecovery(h) then Ret(b, h, 0, m)
      else if b.curstart + 1 > b.maxrestarts then Ret(b.(curstart := -1), h + [RestartsExceeded], 0, m)
      else if m == 0 then Stuck
      else
        var (list, h1) := ResetAll(b.list, h + [Cleared]);
        Restarts(o, b.(curstart := b.curstart + 1, list := list), true, h1, m - 1)
  }

  /** The reset methods: an action starts over; a group resets its members, a restart group its count of restarts. */
  function Reset(a: Action, h: History): (r: (Action, History))
    ensures Depth(r.0) == Depth(a)
    decreases a, 0
  {
    var c := a.ctl.(status := StatusStart, flags := a.ctl.flags - {WarningsGiven});
    match a
    case Leaf(id, _) => (Leaf(id, c), h + [WasReset(id)])
    case Group(id, _, list, state) =>
      var (l, h1) := ResetAll(list, h);
      (Group(id, c, l, state), h1)
    case RestartGroup(id, _, list, state, max, _) =>
      var (l, h1) := ResetAll(list, h);
      (RestartGroup(id, c, l, state, max, 0), h1)
  }

  function ResetAll(list: seq<Action>, h: History): (r: (seq<Action>, History))
    ensures MaxDepth(r.0) == MaxDepth(list) && |r.0| == |list|
    decreases list
  {
    if list == [] then ([], h)
    else
      var (b, h1) := Reset(list[0], h);
      var (l, h2) := ResetAll(list[1..], h1);
      assert ([b] + l)[1..] == l;
      ([b] + l, h2)
  }

  /** Calls perform until it no longer returns -1. */
  function Resumed(o: Oracle, a: Action, h: History, n: nat): Out
    decreases n
  {
    var r := Perform(o, a, h, n);
    if r.Ret? && r.res < 0 then Resumed(o, r.a, r.h, r.left) else r
  }

  // ---------- without break points ----------

  /** The action with every break point removed, here and in its members. */
  ghost function Strip(a: Action): Action
    decreases a, 0
  {
    var c := a.ctl.(breakpoint := {});
    match a
    case Leaf(id, _) => Leaf(id, c)
    case Group(id, _, list, state) => Group(id, c, StripAll(list), state)
    case RestartGroup(id, _, list, state, max, cur) => RestartGroup(id, c, StripAll(list), state, max, cur)
  }

  ghost function StripAll(list: seq<Action>): (r: seq<Action>)
    ensures |r| == |list| && forall i :: 0 <= i < |list| ==> r[i] == Strip(list[i])
    decreases list
  {
    if list == [] then [] else [Strip(list[0])] + StripAll(list[1..])
  }

  ghost function StripLoop(g: Loop): Loop {
    Loop(StripAll(g.list), g.state, g.count, {})
  }

  lemma StripUpdate(list: seq<Action>, i: nat, b: Action)
    requires i < |list|
    ensures StripAll(list[i := b]) == StripAll(list)[i := Strip(b)]
  {
  }

  ghost function Stripped(r: Out): Out {
    match r
    case Stuck => Stuck
    case Ret(a, h, res, m) => Ret(Strip(a), h, res, m)
  }

  lemma {:induction false} StripReset(a: Action, h: History)
    ensures Reset(Strip(a), h) == (Strip(Reset(a, h).0), Reset(a, h).1)
    decreases a, 0
  {
    if !a.Leaf? { StripResetAll(a.list, h); }
  }

  lemma {:induction false} StripResetAll(list: seq<Action>, h: History)
    ensures ResetAll(StripAll(list), h) == (StripAll(ResetAll(list, h).0), ResetAll(list, h).1)
    decreases list
  {
    if list != [] {
      StripReset(list[0], h);
      StripResetAll(list[1..], Reset(list[0], h).1);
      assert StripAll(list)[1..] == StripAll(list[1..]);
      var rest := ResetAll(list[1..], Reset(list[0], h).1).0;
      assert ([Reset(list[0], h).0] + rest)[1..] == rest;
    }
  }

  /** The run without break points that goes on from where r stopped. */
  ghost function Finish(o: Oracle, r: Out): Out {
    match r
    case Stuck => Stuck
    case Ret(a, h, res, m) => if res < 0 then Perform(o, Strip(a), h, m) else Ret(Strip(a), h, res, m)
  }

  ghost function FinishApply(o: Oracle, r: Out): Out {
    match r
    case Stuck => Stuck
    case Ret(a, h, res, m) => if res < 0 then Apply(o, Strip(a), h, m) else Ret(Strip(a), h, res, m)
  }

  ghost function FinishLoop(o: Oracle, r: LoopOut): LoopOut {
    match r
    case LoopStuck => LoopStuck
    case LoopRet(g, h, res, m) => if res < 0 then RunMembers(o, StripLoop(g), h, m)
        else LoopRet(StripLoop(g), h, res, m)
  }

  /** Only StatusMid makes a difference once the action has started. */
  lemma StartedEitherWay(o: Oracle, a: Action, status: Status, h: History, n: nat)
    requires a.ctl.status != StatusMid && status != StatusMid
    ensures Again(o, a.(ctl := a.ctl.(status := status)), h, n) == Again(o, a, h, n)
  {
    var b := a.(ctl := a.ctl.(lcount := a.ctl.count));
    var c := b.(ctl := b.ctl.(status := status));
    assert b.(ctl := b.ctl.(status := StatusMid)) == c.(ctl := c.ctl.(status := StatusMid));
    assert Apply(o, b, h, n) == Apply(o, c, h, n);
  }

  lemma BottomEitherWay(o: Oracle, a: Action, status: Status, h: History, n: nat)
    ensures Bottom(o, a.(ctl := a.ctl.(status := status)), h, n) == Bottom(o, a, h, n)
  {
    var c := a.(ctl := a.ctl.(status := status));
    assert a.(ctl := a.ctl.(status := StatusRepeat)) == c.(ctl := c.ctl.(status := StatusRepeat));
  }

  lemma {:induction false} PerformResumes(o: Oracle, a: Action, h: History, n: nat)
    ensures Perform(o, Strip(a), h, n) == Finish(o, Perform(o, a, h, n))
    decreases n, Depth(a), 6, 0
  {
    match a.ctl.status
    case StatusStart =>
      if n > 0 {
        if StartBreak(a.ctl) {
          StartedEitherWay(o, Strip(a.(ctl := a.ctl.(count := 0))), BreakStartHit, h, n - 1);
        } else {
          AgainResumes(o, a.(ctl := a.ctl.(count := 0)), h, n - 1);
        }
      }
    case BreakStartHit => AgainResumes(o, a, h, n);
    case StatusRepeat => AgainResumes(o, a, h, n);
    case StatusMid => ContinueResumes(o, a, h, n);
    case StatusEnd =>
    case StatusActionBreak => BottomResumes(o, a, h, n);
  }

  lemma {:induction false} AgainResumes(o: Oracle, a: Action, h: History, n: nat)
    ensures Again(o, Strip(a), h, n) == Finish(o, Again(o, a, h, n))
    decreases n, Depth(a), 4, 1
  {
    ContinueResumes(o, a.(ctl := a.ctl.(lcount := a.ctl.count)), h, n);
  }

  lemma {:induction false} ContinueResumes(o: Oracle, a: Action, h: History, n: nat)
    ensures Continue(o, Strip(a), h, n) == Finish(o, Continue(o, a, h, n))
    decreases n, Depth(a), 4, 0
  {
    hide Apply, Strip;
    ApplyResumes(o, a, h, n);
    var q := Apply(o, a, h, n);
    if q.Ret? {
      StripKeepsStatus(q.a);
      if q.res >= 0 {
        AfterApplyResumes(o, q);
      } else {
        assert Perform(o, Strip(q.a), q.h, q.left) == Continue(o, Strip(q.a), q.h, q.left);
      }
    }
  }

  lemma StripKeepsStatus(a: Action)
    ensures Strip(a).ctl == a.ctl.(breakpoint := {}) && Strip(a).id == a.id
    ensures forall c: Ctl :: Strip(a.(ctl := c)) == Strip(a).(ctl := c.(breakpoint := {}))
  {
  }

  lemma {:induction false} AfterApplyResumes(o: Oracle, q: Out)
    requires q.Ret? && q.res >= 0
    ensures AfterApply(o, Stripped(q)) == Finish(o, AfterApply(o, q))
    decreases q.left, Depth(q.a), 3, 1
  {
    hide Bottom, Strip;
    var b, m := q.a, q.left;
    StripKeepsStatus(b);
    if m > 0 {
      if b.ctl.lcount < b.ctl.count {
        var (c, h1) := NoteApplied(b, q.h);
        StripKeepsStatus(c);
        if ActionBreak(c.ctl.breakpoint) {
          BottomEitherWay(o, Strip(c), StatusActionBreak, h1, m - 1);
        } else {
          BottomResumes(o, c, h1, m - 1);
        }
      } else {
        BottomResumes(o, b, q.h, m - 1);
      }
    }
  }

  lemma {:induction false} BottomResumes(o: Oracle, a: Action, h: History, n: nat)
    ensures Bottom(o, Strip(a), h, n) == Finish(o, Bottom(o, a, h, n))
    decreases n, Depth(a), 5, 0
  {
    var b := a.(ctl := a.ctl.(status := StatusRepeat));
    assert Strip(b) == Strip(a).(ctl := Strip(a).ctl.(status := StatusRepeat));
    if b.ctl.lcount < b.ctl.count && RepeatApply in b.ctl.flags { AgainResumes(o, b, h, n); }
  }

  lemma {:induction false} ApplyResumes(o: Oracle, a: Action, h: History, n: nat)
    ensures Apply(o, Strip(a), h, n) == FinishApply(o, Apply(o, a, h, n))
    decreases n, Depth(a), 3, 0
  {
    var starting := a.ctl.status != StatusMid;
    var b := a.(ctl := a.ctl.(status := StatusMid));
    match b
    case Leaf(id, c) =>
    case Group(id, c, list, state) => MembersResume(o, Enter(b, starting), h, n);
    case RestartGroup(id, c, list, state, maxrestarts, curstart) =>
      if curstart != -1 { RestartsResume(o, b, starting, h, n); }
  }

  lemma {:induction false} MembersResume(o: Oracle, g: Loop, h: History, n: nat)
    ensures RunMembers(o, StripLoop(g), h, n) == FinishLoop(o, RunMembers(o, g, h, n))
    decreases n, 1 + MaxDepth(g.list), 1, 2 * (|g.list| - g.state)
  {
    hide Perform, Strip, Depth, MaxDepth, AfterMember;
    if g.state < |g.list| {
      DepthAt(g.list, g.state);
      PerformResumes(o, g.list[g.state], h, n);
      AfterMemberResumes(o, g, Perform(o, g.list[g.state], h, n));
    }
  }

  lemma StripDepth(a: Action)
    ensures Depth(Strip(a)) == Depth(a)
    decreases a, 0
  {
    if !a.Leaf? { StripAllDepth(a.list); }
  }

  lemma StripAllDepth(list: seq<Action>)
    ensures MaxDepth(StripAll(list)) == MaxDepth(list)
    decreases list
  {
    if list != [] {
      StripDepth(list[0]);
      StripAllDepth(list[1..]);
      assert StripAll(list)[1..] == StripAll(list[1..]);
    }
  }

  lemma {:induction false} AfterMemberResumes(o: Oracle, g: Loop, q: Out)
    requires g.state < |g.list| && (q.Ret? ==> q.res >= -1 && Depth(q.a) == Depth(g.list[g.state]))
    ensures var f := Finish(o, q);
      && (f.Ret? ==> f.res >= -1 && Depth(f.a) == Depth(StripLoop(g).list[g.state]))
      && AfterMember(o, StripLoop(g), f) == FinishLoop(o, AfterMember(o, g, q))
    decreases if q.Ret? then q.left else 0, 1 + MaxDepth(g.list), 1, 2 * (|g.list| - g.state) - 1
  {
    hide Perform, Strip, Depth, MaxDepth, RunMembers;
    if q.Ret? {
      StripDepth(g.list[g.state]);
      StripDepth(q.a);
      DepthUpdate(g.list, g.state, q.a);
      StripUpdate(g.list, g.state, q.a);
      var g1 := g.(list := g.list[g.state := q.a]);
      if q.res < 0 {
        MemberAgain(o, StripLoop(g1), q.h, q.left);
        OnceMore(o, StripLoop(g), Strip(q.a), Perform(o, Strip(q.a), q.h, q.left));
      } else {
        var g2 := g1.(count := g1.count + q.res, state := g1.state + 1);
        if !(q.res > 0 && ActionBreak(g2.breakpoint)) { MembersResume(o, g2, q.h, q.left); }
      }
    }
  }

  lemma MemberAgain(o: Oracle, g: Loop, h: History, n: nat)
    requires g.state < |g.list|
    ensures RunMembers(o, g, h, n) == AfterMember(o, g, Perform(o, g.list[g.state], h, n))
  {
  }

  /** The member a group ran is put back whatever was there. */
  lemma OnceMore(o: Oracle, g: Loop, b: Action, q: Out)
    requires g.state < |g.list| && Depth(b) == Depth(g.list[g.state]) &&
               (q.Ret? ==> q.res >= -1 && Depth(q.a) == Depth(b))
    ensures AfterMember(o, g.(list := g.list[g.state := b]), q) == AfterMember(o, g, q)
  {
    if q.Ret? { assert g.list[g.state := b][g.state := q.a] == g.list[g.state := q.a]; }
  }

  lemma {:induction false} RestartsResume(o: Oracle, a: Action, starting: bool, h: History, n: nat)
    requires a.RestartGroup? && a.curstart >= 0
    ensures Restarts(o, Strip(a), starting, h, n) == FinishRestarts(o, Restarts(o, a, starting, h, n))
    decreases n, Depth(a), 2, 1
  {
    hide RunMembers, AfterMembers, MaxDepth;
    MembersResume(o, Enter(a, starting), h, n);
    AfterMembersResumes(o, a, RunMembers(o, Enter(a, starting), h, n));
  }

  ghost function FinishRestarts(o: Oracle, r: Out): Out
    requires r.Ret? && r.res < 0 ==> r.a.RestartGroup? && r.a.curstart >= 0
  {
    if r.Ret? && r.res < 0 then Restarts(o, Strip(r.a), false, r.h, r.left) else Stripped(r)
  }

  lemma {:induction false} AfterMembersResumes(o: Oracle, a: Action, q: LoopOut)
    requires a.RestartGroup? && a.curstart >= 0 &&
               (q.LoopRet? ==> -1 <= q.res <= 0 && MaxDepth(q.g.list) == MaxDepth(a.list))
    ensures var f := FinishLoop(o, q);
      && (f.LoopRet? ==> -1 <= f.res <= 0 && MaxDepth(f.g.list) == MaxDepth(Strip(a).list))
      && AfterMembers(o, Strip(a), f) == FinishRestarts(o, AfterMembers(o, a, q))
    decreases if q.LoopRet? then q.left else 0, Depth(a), 2, 0
  {
    hide RunMembers, ResetAll, MaxDepth, StripAll;
    StripAllDepth(a.list);
    if q.LoopRet? {
      StripAllDepth(q.g.list);
      var b := Absorb(a, q.g);
      if q.res < 0 {
        PutBack(o, Strip(a), Strip(b), RunMembers(o, StripLoop(q.g), q.h, q.left));
      } else if o.restartPending(q.h) && !o.jumptableRecovery(q.h) && b.curstart + 1 <= b.maxrestarts && q.left > 0 {
        var (list, h1) := ResetAll(b.list, q.h + [Cleared]);
        StripResetAll(b.list, q.h + [Cleared]);
        RestartsResume(o, b.(curstart := b.curstart + 1, list := list), true, h1, q.left - 1);
      }
    }
  }

  /** What the members made of the group replaces what was there. */
  lemma PutBack(o: Oracle, a: Action, b: Action, q: LoopOut)
    requires a.RestartGroup? && a.curstart >= 0 &&
               (q.LoopRet? ==> -1 <= q.res <= 0 && MaxDepth(q.g.list) == MaxDepth(a.list))
    requires b.RestartGroup? && MaxDepth(b.list) == MaxDepth(a.list)
    requires a.(ctl := b.ctl, list := b.list, state := b.state) == b &&
               a.ctl == b.ctl.(count := a.ctl.count, breakpoint := a.ctl.breakpoint)
    ensures AfterMembers(o, a, q) == AfterMembers(o, b, q)
  {
    if q.LoopRet? { assert Absorb(a, q.g) == Absorb(b, q.g); }
  }

  // ---------- the main results ----------

  /** With no break points, perform does not stop half-way. */
  lemma {:induction false} NoBreakNoStop(o: Oracle, a: Action, h: History, n: nat)
    ensures var r := Perform(o, Strip(a), h, n); r.Ret? ==> r.res >= 0 && r.a == Strip(r.a)
    decreases n
  {
    PerformResumes(o, a, h, n);
    var r := Perform(o, a, h, n);
    if r.Ret? && r.res < 0 { NoBreakNoStop(o, r.a, r.h, r.left); }
    if r.Ret? { StripStrip(r.a); }
  }

  lemma {:induction false} StripStrip(a: Action)
    ensures Strip(Strip(a)) == Strip(a)
    decreases a, 0
  {
    if !a.Leaf? {
      forall i | 0 <= i < |a.list| ensures StripAll(StripAll(a.list))[i] == StripAll(a.list)[i] {
        StripStrip(a.list[i]);
      }
    }
  }

  /** Whatever break points are set, calling perform until it does not return -1 leads to the same history, the same
      count, the same state and the same number of ticks as one call with no break points; and one ends exactly
      when the other does. */
  lemma {:induction false} ResumedIsUninterrupted(o: Oracle, a: Action, h: History, n: nat)
    ensures Stripped(Resumed(o, a, h, n)) == Perform(o, Strip(a), h, n)
    decreases n
  {
    PerformResumes(o, a, h, n);
    var r := Perform(o, a, h, n);
    if r.Ret? && r.res < 0 { ResumedIsUninterrupted(o, r.a, r.h, r.left); }
  }
}
