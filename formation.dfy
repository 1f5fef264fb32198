/** The enemy flight-path parameters and the `FormationMaker` generator of
    src/enemy/formation.rs. The maker hands out copies of one template until
    `FORMATION_MEMBERS_MAX` enemies share it, then builds a fresh one. The
    random draws of a fresh template (and the `atan2` of its starting angle)
    are supplied by the caller in a `Draws` record. */
module Formations {
  import opened Common

  /** The `Formation` component of an enemy. */
  datatype Formation = Formation(start: Vec2, radius: Vec2, pivot: Vec2, speed: real, angle: real)

  /** What one fresh template draws from the random source: the coin flip
      for the entry side, the start height, the pivot, the horizontal
      radius; and `heading`, the value of
      `atan2(start.y - pivot.y, start.x - pivot.x)`. */
  datatype Draws = Draws(rightSide: bool, startY: real, pivotX: real, pivotY: real, radiusX: real, heading: real)

  /** The ranges `gen_range` draws from; each is half open, as Rust's `a..b`. */
  predicate ValidDraws(win: WinSize, d: Draws) {
    && -(win.h / 2.0 + 100.0) <= d.startY < win.h / 2.0 + 100.0
    && -(win.w / 4.0) <= d.pivotX < win.w / 4.0
    && 0.0 <= d.pivotY < win.h / 3.0 - 50.0
    && 80.0 <= d.radiusX < 150.0
  }

  /** A formation the kernel can fly: both radii positive and a
      non-negative speed. */
  predicate WellFormed(f: Formation) {
    f.radius.x > 0.0 && f.radius.y > 0.0 && f.speed >= 0.0
  }

  /** The template built on the fresh branch of `make`. */
  function FreshFormation(win: WinSize, d: Draws): (f: Formation)
    requires ValidDraws(win, d)
    ensures f.start.x == win.w / 2.0 + 100.0 || f.start.x == -(win.w / 2.0 + 100.0)
    ensures f.start.x > 0.0 <==> d.rightSide
    ensures -(win.h / 2.0 + 100.0) <= f.start.y < win.h / 2.0 + 100.0
    ensures -(win.w / 4.0) <= f.pivot.x < win.w / 4.0 && 0.0 <= f.pivot.y < win.h / 3.0 - 50.0
    ensures 80.0 <= f.radius.x < 150.0 && f.radius.y == 100.0
    ensures f.speed == BASE_SPEED && f.angle == d.heading
    ensures WellFormed(f)
  {
    var wSpan := win.w / 2.0 + 100.0;
    var x := if d.rightSide then wSpan else -wSpan;
    Formation(Vec2(x, d.startY), Vec2(d.radiusX, 100.0), Vec2(d.pivotX, d.pivotY), BASE_SPEED, d.heading)
  }

  /** A fresh formation enters from outside the viewport, left or right. */
  lemma FreshStartsOffScreen(win: WinSize, d: Draws)
    requires ValidDraws(win, d)
    ensures var f := FreshFormation(win, d);
      f.start.x > win.w / 2.0 || f.start.x < -(win.w / 2.0)
  {
    var f := FreshFormation(win, d);
    assert win.w > 0.0;
  }

  /** The two fields of a `FormationMaker`, as a value. */
  datatype MakerState = MakerState(template: Option<Formation>, members: nat)

  /** `FormationMaker::default()`: no template, no members. */
  const DefaultMaker: MakerState := MakerState(None, 0)

  /** True when the next `make` hands out a copy of the template. */
  predicate CopiesNext(s: MakerState) {
    s.template.Some? && s.members < FORMATION_MEMBERS_MAX
  }

  /** Whether `make` can run in state `s` with draws `d`: a fresh template
      needs draws from non-empty ranges. */
  predicate CanMake(s: MakerState, win: WinSize, d: Draws) {
    CopiesNext(s) || ValidDraws(win, d)
  }

  /** The invariant every call of `make` establishes. */
  predicate Settled(s: MakerState) {
    s.template.Some? && 1 <= s.members <= FORMATION_MEMBERS_MAX
  }

  /** One call of `make`: the new maker state and the formation handed out. */
  function Next(s: MakerState, win: WinSize, d: Draws): (r: (MakerState, Formation))
    requires CanMake(s, win, d)
    ensures Settled(r.0) && r.0.template == Some(r.1)
    ensures CopiesNext(s) ==> r.1 == s.template.value && r.0.members == s.members + 1
    ensures !CopiesNext(s) ==> r.0.members == 1
  {
    if CopiesNext(s) then
      (MakerState(s.template, s.members + 1), s.template.value)
    else
      var f := FreshFormation(win, d);
      (MakerState(Some(f), 1), f)
  }

  /** The stateful generator. */
  class FormationMaker {
    var template: Option<Formation>
    var members: nat

    function State(): MakerState
      reads this
    {
      MakerState(template, members)
    }

    constructor ()
      ensures State() == DefaultMaker
    {
      template := None;
      members := 0;
    }

    /** `FormationMaker::make`: copy the template while it has room for
        another member, otherwise build, store and return a fresh one. */
    method Make(win: WinSize, d: Draws) returns (f: Formation)
      requires CanMake(State(), win, d)
      modifies this
      ensures old(CopiesNext(State())) ==>
        f == old(template).value && template == old(template) && members == old(members) + 1
      ensures !old(CopiesNext(State())) ==>
        f == FreshFormation(win, d) && template == Some(f) && members == 1
      ensures (State(), f) == Next(old(State()), win, d)
      ensures Settled(State())
    {
      if template.Some? && members < FORMATION_MEMBERS_MAX {
        members := members + 1;
        f := template.value;
      } else {
        f := FreshFormation(win, d);
        template := Some(f);
        members := 1;
      }
    }
  }

  predicate AllValid(win: WinSize, ds: seq<Draws>) {
    forall i | 0 <= i < |ds| :: ValidDraws(win, ds[i])
  }

  /** Successive calls of `make`, the `i`-th using draws `ds[i]`: the final
      state and the formations handed out, in order. */
  function Run(s: MakerState, win: WinSize, ds: seq<Draws>): (r: (MakerState, seq<Formation>))
    requires AllValid(win, ds)
    ensures |r.1| == |ds|
    decreases |ds|
  {
    if ds == [] then (s, [])
    else
      var (s1, f) := Next(s, win, ds[0]);
      var (s2, fs) := Run(s1, win, ds[1..]);
      (s2, [f] + fs)
  }

  /** Whatever state the maker starts in, after one call or more it holds a
      template and a member count in `[1, FORMATION_MEMBERS_MAX]`. */
  lemma {:induction false} RunSettles(s: MakerState, win: WinSize, ds: seq<Draws>)
    requires AllValid(win, ds) && |ds| >= 1
    ensures Settled(Run(s, win, ds).0)
    decreases |ds|
  {
    var s1 := Next(s, win, ds[0]).0;
    if |ds| > 1 {
      RunSettles(s1, win, ds[1..]);
    }
  }

  /** From a maker about to build a fresh template (in particular the
      default one), calls alternate fresh, copy, fresh, copy: the call at
      index `2k` builds from `ds[2k]` and the call at `2k+1` returns the same
      formation. */
  lemma {:induction false} RunAlternates(s: MakerState, win: WinSize, ds: seq<Draws>, i: nat)
    requires AllValid(win, ds) && !CopiesNext(s) && i < |ds|
    ensures Run(s, win, ds).1[i] == FreshFormation(win, ds[i - i % 2])
    decreases |ds|
  {
    var (s1, f0) := Next(s, win, ds[0]);
    var rest := Run(s1, win, ds[1..]);
    assert Run(s, win, ds).1 == [f0] + rest.1;
    if i > 0 {
      assert CopiesNext(s1);
      var (s2, f1) := Next(s1, win, ds[1]);
      assert f1 == f0 && s2.members == FORMATION_MEMBERS_MAX;
      assert rest.1 == [f1] + Run(s2, win, ds[2..]).1;
      if i > 1 {
        RunAlternates(s2, win, ds[2..], i - 2);
        assert ds[2..][(i - 2) - (i - 2) % 2] == ds[i - i % 2];
      }
    }
  }

  /** Calls `2k+1` and `2k+2` from the default maker return identical
      formations: the one built fresh from the draws of call `2k+1`. */
  lemma PairsShareATemplate(win: WinSize, ds: seq<Draws>, k: nat)
    requires AllValid(win, ds) && 2 * k + 1 < |ds|
    ensures Run(DefaultMaker, win, ds).1[2 * k] == Run(DefaultMaker, win, ds).1[2 * k + 1]
    ensures Run(DefaultMaker, win, ds).1[2 * k] == FreshFormation(win, ds[2 * k])
  {
    RunAlternates(DefaultMaker, win, ds, 2 * k);
    RunAlternates(DefaultMaker, win, ds, 2 * k + 1);
  }
}
