/** Relative paths: `convert_absolute_path_to_relative` in diesel_cli/src/main.rs. */
module RelativePath {

  datatype Component = Prefix(drive: string) | RootDir | CurDir | ParentDir | Normal(name: string)

  type Path = seq<Component>

  // ----- what a path means

  /** Follows one component from a path. Going up stops at a root; going up from a place that is
      not known by name is recorded as `..`. A root keeps the drive, a drive replaces everything. */
  function Follow(path: Path, c: Component): Path {
    match c
    case CurDir => path
    case Normal(_) => path + [c]
    case Prefix(_) => [c]
    case RootDir => if path != [] && path[0].Prefix? then [path[0], RootDir] else [RootDir]
    case ParentDir =>
      if path == [] then [ParentDir]
      else if path[|path| - 1].Normal? then path[..|path| - 1]
      else if path[|path| - 1].RootDir? then path
      else path + [ParentDir]
  }

  function Resolve(start: Path, steps: Path): Path {
    if steps == [] then start
    else Follow(Resolve(start, steps[..|steps| - 1]), steps[|steps| - 1])
  }

  /** Collecting components into a `PathBuf` pushes them one by one: like following them, but a
      pushed `..` or `.` is kept as it is. */
  function Push(buf: Path, c: Component): Path {
    match c
    case Prefix(_) => [c]
    case RootDir => if buf != [] && buf[0].Prefix? then [buf[0], RootDir] else [RootDir]
    case _ => buf + [c]
  }

  function PushAll(buf: Path, components: Path): Path {
    if components == [] then buf
    else Push(PushAll(buf, components[..|components| - 1]), components[|components| - 1])
  }

  function Collect(components: Path): Path { PushAll([], components) }

  predicate Named(path: Path) { forall i :: 0 <= i < |path| ==> path[i].Normal? }

  /** The length of the part that says where a path starts: nothing, `/`, or a drive and `\`. */
  function AnchorLength(path: Path): (n: nat)
    ensures n <= |path|
  {
    if path != [] && path[0].RootDir? then 1
    else if |path| >= 2 && path[0].Prefix? && path[1].RootDir? then 2
    else 0
  }

  function Anchor(path: Path): Path { path[..AnchorLength(path)] }

  /** A path without `.` and `..`: an anchor followed by names. */
  predicate Canonical(path: Path) { Named(path[AnchorLength(path)..]) }

  // ----- the computed path

  function Ups(n: nat): (ups: Path)
    ensures |ups| == n && forall i :: 0 <= i < n ==> ups[i] == ParentDir
  {
    if n == 0 then [] else [ParentDir] + Ups(n - 1)
  }

  function CommonPrefix(a: Path, b: Path): (n: nat)
    ensures n <= |a| && n <= |b| && a[..n] == b[..n]
    ensures n < |a| && n < |b| ==> a[n] != b[n]
  {
    if a == [] || b == [] || a[0] != b[0] then 0
    else
      var n := CommonPrefix(a[1..], b[1..]);
      assert a[..n + 1] == [a[0]] + a[1..][..n] && b[..n + 1] == [b[0]] + b[1..][..n];
      n + 1
  }

  /** Up from `current` to where the paths part, then down to `target`. */
  function UpAndDown(target: Path, current: Path): Path {
    var n := CommonPrefix(target, current);
    Ups(|current| - n) + target[n..]
  }

  /** What the loop collects for any two paths: past the common part, a leading `.` of `current` is
      answered with the target's component instead of a `..`. */
  function Components(target: Path, current: Path): Path {
    var n := CommonPrefix(target, current);
    AfterDot(target[n..], current[n..])
  }

  function AfterDot(target: Path, current: Path): Path {
    if target != [] && current != [] && current[0].CurDir?
    then [target[0]] + AfterDot(target[1..], current[1..])
    else Ups(|current|) + target
  }

  /** What is still to be collected when `target` and `current` remain and `atStart` says that nothing was pushed yet. */
  function Remaining(target: Path, current: Path, atStart: bool): Path {
    if atStart then Components(target, current) else AfterDot(target, current)
  }

  method ConvertAbsolutePathToRelative(target: Path, current: Path) returns (relative: Path)
    ensures relative == Collect(Components(target, current))
    ensures Canonical(target) && Canonical(current) && Anchor(target) == Anchor(current) ==> IsShortest(current, target, relative)
  {
    var components := CollectComponents(target, current);
    relative := Collect(components);
    if Canonical(target) && Canonical(current) && Anchor(target) == Anchor(current) {
      RelativeIsShortest(target, current);
    }
  }

  /** The loop over the two component iterators. */
  method CollectComponents(target: Path, current: Path) returns (components: Path)
    ensures components == Components(target, current)
  {
    var targets, currents := target, current;
    components := [];
    ghost var whole := Components(target, current);
    while true
      invariant whole == components + Remaining(targets, currents, components == [])
      decreases |targets| + |currents|
    {
      RemainingStep(targets, currents, components == []);
      ghost var pushed := components;
      if targets == [] && currents == [] {
        assert pushed + [] == pushed;
        break;
      } else if currents == [] {
        components := components + [targets[0]];
        components := components + targets[1..];
        Associative(pushed, [targets[0]], targets[1..]);
        break;
      } else if targets == [] {
        components := components + [ParentDir];
        Associative(pushed, [ParentDir], Remaining(targets, currents[1..], false));
        currents := currents[1..];
      } else if components == [] && targets[0] == currents[0] {
        targets, currents := targets[1..], currents[1..];
      } else if currents[0].CurDir? {
        components := components + [targets[0]];
        Associative(pushed, [targets[0]], Remaining(targets[1..], currents[1..], false));
        targets, currents := targets[1..], currents[1..];
      } else {
        components := components + [ParentDir];
        components := components + Ups(|currents[1..]|);
        components := components + [targets[0]];
        components := components + targets[1..];
        var ups := Ups(|currents[1..]|);
        Associative(pushed, [ParentDir], ups);
        Associative(pushed, [ParentDir] + ups, [targets[0]]);
        Associative(pushed, [ParentDir] + ups + [targets[0]], targets[1..]);
        break;
      }
    }
  }

  lemma Associative(a: Path, b: Path, c: Path)
    ensures (a + b) + c == a + (b + c)
  {
  }

  lemma RemainingStep(target: Path, current: Path, atStart: bool)
    ensures target == [] && current == [] ==> Remaining(target, current, atStart) == []
    ensures target != [] && current == [] ==> Remaining(target, current, atStart) == [target[0]] + target[1..]
    ensures target == [] && current != [] ==>
              Remaining(target, current, atStart) == [ParentDir] + Remaining(target, current[1..], false)
    ensures target != [] && current != [] ==>
              Remaining(target, current, atStart) ==
                if atStart && target[0] == current[0] then Remaining(target[1..], current[1..], true)
                else if current[0].CurDir? then [target[0]] + Remaining(target[1..], current[1..], false)
                else [ParentDir] + Ups(|current[1..]|) + [target[0]] + target[1..]
  {
    ComponentsStep(target, current);
    AfterDotStep(target, current);
  }

  lemma ComponentsStep(target: Path, current: Path)
    ensures Components(target, current) ==
              if target != [] && current != [] && target[0] == current[0]
              then Components(target[1..], current[1..]) else AfterDot(target, current)
  {
  }

  lemma AfterDotStep(target: Path, current: Path)
    ensures target == [] ==> AfterDot(target, current) == Ups(|current|)
    ensures target != [] ==>
              AfterDot(target, current) ==
                if current == [] then [target[0]] + target[1..]
                else if current[0].CurDir? then [target[0]] + AfterDot(target[1..], current[1..])
                else [ParentDir] + Ups(|current[1..]|) + [target[0]] + target[1..]
  {
  }

  // ----- following and collecting, in parts

  lemma {:induction false} ResolveAppend(start: Path, a: Path, b: Path)
    ensures Resolve(start, a + b) == Resolve(Resolve(start, a), b)
    decreases |b|
  {
    if b == [] {
      assert a + b == a;
    } else {
      ResolveAppend(start, a, b[..|b| - 1]);
      assert (a + b)[..|a + b| - 1] == a + b[..|b| - 1];
    }
  }

  lemma {:induction false} PushAllAppend(buf: Path, a: Path, b: Path)
    ensures PushAll(buf, a + b) == PushAll(PushAll(buf, a), b)
    decreases |b|
  {
    if b == [] {
      assert a + b == a;
    } else {
      PushAllAppend(buf, a, b[..|b| - 1]);
      assert (a + b)[..|a + b| - 1] == a + b[..|b| - 1];
    }
  }

  predicate Plain(steps: Path) { forall i :: 0 <= i < |steps| ==> !steps[i].Prefix? && !steps[i].RootDir? }

  lemma {:induction false} PushPlain(buf: Path, steps: Path)
    requires Plain(steps)
    ensures PushAll(buf, steps) == buf + steps
  {
    if steps != [] {
      PushPlain(buf, steps[..|steps| - 1]);
      assert steps == steps[..|steps| - 1] + [steps[|steps| - 1]];
    }
  }

  lemma {:induction false} ResolveNamed(start: Path, names: Path)
    requires Named(names)
    ensures Resolve(start, names) == start + names
  {
    if names != [] {
      ResolveNamed(start, names[..|names| - 1]);
      assert names == names[..|names| - 1] + [names[|names| - 1]];
    }
  }

  lemma {:induction false} ResolveUps(path: Path, n: nat)
    requires n <= |path| && Named(path[|path| - n..])
    ensures Resolve(path, Ups(n)) == path[..|path| - n]
  {
    if n > 0 {
      assert path[|path| - (n - 1)..] == path[|path| - n..][1..];
      ResolveUps(path, n - 1);
      assert Ups(n)[..n - 1] == Ups(n - 1);
      assert path[|path| - n] == path[|path| - n..][0];
      assert path[..|path| - (n - 1)][..|path| - n] == path[..|path| - n];
    }
  }

  lemma ResolveClimb(path: Path, k: nat, names: Path)
    requires k <= |path| && Named(path[k..]) && Named(names)
    ensures Resolve(path, Ups(|path| - k) + names) == path[..k] + names
  {
    ResolveAppend(path, Ups(|path| - k), names);
    ResolveUps(path, |path| - k);
    ResolveNamed(path[..k], names);
  }

  /** On canonical paths the loop climbs and then descends. */
  lemma CanonicalGoesUpAndDown(target: Path, current: Path)
    requires Canonical(target) && Canonical(current)
    ensures Components(target, current) == UpAndDown(target, current)
  {
  }

  lemma AnchorIsCommon(target: Path, current: Path)
    requires Anchor(target) == Anchor(current)
    ensures CommonPrefix(target, current) >= AnchorLength(target)
  {
  }

  /** With a shared starting point the result is one `..` per component of `current` past the common
      part, then what is left of `target`. */
  lemma RelativeShape(target: Path, current: Path)
    requires Canonical(target) && Canonical(current) && Anchor(target) == Anchor(current)
    ensures Collect(Components(target, current)) == UpAndDown(target, current)
    ensures Named(target[CommonPrefix(target, current)..]) && Named(current[CommonPrefix(target, current)..])
  {
    CanonicalGoesUpAndDown(target, current);
    AnchorIsCommon(target, current);
    var n := CommonPrefix(target, current);
    assert |Anchor(target)| == |Anchor(current)|;
    NamedTail(target, AnchorLength(target), n);
    NamedTail(current, AnchorLength(current), n);
    PushPlain([], UpAndDown(target, current));
  }

  lemma NamedTail(path: Path, a: nat, n: nat)
    requires a <= n <= |path| && Named(path[a..])
    ensures Named(path[n..])
  {
  }

  // ----- correctness

  predicate StartsWithDrive(path: Path) { path != [] && path[0].Prefix? }

  predicate StartsWithRoot(path: Path) { path != [] && path[0].RootDir? }

  /** When the answer can lead to `target` at all: both start at the same place, or `target` says
      where it starts in a way that does not depend on `current`. */
  predicate Reachable(target: Path, current: Path) {
    || Anchor(target) == Anchor(current)
    || StartsWithDrive(target)
    || (StartsWithRoot(target) && !StartsWithDrive(current))
  }

  lemma ResolveReached(target: Path, current: Path)
    requires Canonical(target) && Canonical(current) && Anchor(target) == Anchor(current)
    ensures Resolve(current, UpAndDown(target, current)) == target
  {
    hide Resolve, Collect, Components, Ups, Canonical, Anchor, AnchorLength;
    RelativeShape(target, current);
    var n := CommonPrefix(target, current);
    ResolveClimb(current, n, target[n..]);
    assert target == target[..n] + target[n..];
  }

  lemma FollowAbsolute(start: Path, target: Path)
    requires Canonical(target) && (StartsWithDrive(target) || (StartsWithRoot(target) && !StartsWithDrive(start)))
    ensures Resolve(start, target) == target
    ensures PushAll(start, target) == target
  {
    hide Resolve, PushAll;
    var names := AnchoredParts(target);
    var anchor := Anchor(target);
    ResolveAppend(start, anchor, names);
    PushAllAppend(start, anchor, names);
    FollowAnchor(start, anchor);
    ResolveNamed(anchor, names);
    PushPlain(anchor, names);
  }

  lemma AnchoredParts(target: Path) returns (names: Path)
    requires Canonical(target) && (StartsWithDrive(target) || StartsWithRoot(target))
    ensures target == Anchor(target) + names && Named(names)
    ensures Anchor(target) == if StartsWithDrive(target) then [target[0], RootDir] else [RootDir]
  {
    var k := AnchorLength(target);
    names := target[k..];
    assert forall i :: k <= i < |target| ==> target[i] == names[i - k];
  }

  lemma FollowAnchor(start: Path, anchor: Path)
    requires (|anchor| == 2 && anchor[0].Prefix? && anchor[1] == RootDir) || (anchor == [RootDir] && !StartsWithDrive(start))
    ensures Resolve(start, anchor) == anchor && PushAll(start, anchor) == anchor
  {
  }

  /** Steps that do not restart keep the root or drive a path begins with. */
  lemma {:induction false} PlainStepsKeepAnchor(start: Path, steps: Path)
    requires Plain(steps) && start != [] && (start[0].RootDir? || start[0].Prefix?)
    ensures var r := Resolve(start, steps); r != [] && r[0] == start[0]
  {
    if steps != [] {
      PlainStepsKeepAnchor(start, steps[..|steps| - 1]);
    }
  }

  lemma SameStartSameAnchor(target: Path, current: Path)
    requires Canonical(target) && Canonical(current)
    ensures target != [] && current != [] && target[0] == current[0] ==> Anchor(target) == Anchor(current)
  {
  }

  lemma DifferentAnchors(target: Path, current: Path)
    requires Canonical(target) && Canonical(current) && Anchor(target) != Anchor(current)
    ensures Collect(Components(target, current)) == PushAll(Ups(|current|), target)
  {
    SameStartSameAnchor(target, current);
    CanonicalGoesUpAndDown(target, current);
    assert CommonPrefix(target, current) == 0 && target[0..] == target;
    PushAllAppend([], Ups(|current|), target);
    PushPlain([], Ups(|current|));
    assert [] + Ups(|current|) == Ups(|current|);
  }

  /** Following the returned path from `current` leads to `target` exactly when that is possible. */
  lemma RelativeResolvesIff(target: Path, current: Path)
    requires Canonical(target) && Canonical(current)
    ensures Resolve(current, Collect(Components(target, current))) == target <==> Reachable(target, current)
  {
    if Anchor(target) == Anchor(current) {
      RelativeShape(target, current);
      ResolveReached(target, current);
    } else {
      DifferentAnchors(target, current);
      if StartsWithDrive(target) || StartsWithRoot(target) {
        FollowAbsolute(Ups(|current|), target);
        if StartsWithDrive(target) || !StartsWithDrive(current) {
          FollowAbsolute(current, target);
        } else {
          RootKeepsDrive(current, target);
        }
      } else {
        NamelessAnchor(target, current);
      }
    }
  }

  lemma RootKeepsDrive(current: Path, target: Path)
    requires Canonical(target) && StartsWithRoot(target) && StartsWithDrive(current)
    ensures Resolve(current, target) != target
  {
    var names := target[1..];
    assert target == [RootDir] + names;
    ResolveAppend(current, [RootDir], names);
    assert [RootDir][..0] == [];
    assert Resolve(current, [RootDir]) == [current[0], RootDir];
    ResolveNamed([current[0], RootDir], names);
  }

  lemma NamelessAnchor(target: Path, current: Path)
    requires Canonical(target) && Canonical(current) && Anchor(target) != Anchor(current)
    requires !StartsWithDrive(target) && !StartsWithRoot(target)
    ensures Resolve(current, PushAll(Ups(|current|), target)) != target
  {
    assert AnchorLength(target) == 0 && target[0..] == target;
    assert AnchorLength(current) == 0 ==> Anchor(current) == [] == Anchor(target);
    PushPlain(Ups(|current|), target);
    PlainStepsKeepAnchor(current, Ups(|current|) + target);
  }

  // ----- minimality

  /** The number of steps between two places of the directory tree. */
  function Distance(from: Path, to: Path): int {
    |from| + |to| - 2 * CommonPrefix(to, from)
  }

  lemma FollowDistance(path: Path, target: Path, c: Component)
    requires !c.Prefix? && !c.RootDir?
    ensures Distance(Follow(path, c), target) >= Distance(path, target) - 1
  {
  }

  lemma {:induction false} StepsCoverDistance(path: Path, target: Path, steps: Path)
    requires Plain(steps)
    ensures Distance(Resolve(path, steps), target) >= Distance(path, target) - |steps|
  {
    if steps != [] {
      var last := |steps| - 1;
      StepsCoverDistance(path, target, steps[..last]);
      FollowDistance(Resolve(path, steps[..last]), target, steps[last]);
    }
  }

  lemma CommonPrefixSelf(a: Path)
    ensures CommonPrefix(a, a) == |a|
  {
  }

  /** `steps` goes up and down from `current` to `target`. */
  predicate Leads(current: Path, steps: Path, target: Path) {
    Plain(steps) && Resolve(current, steps) == target
  }

  ghost predicate IsShortest(current: Path, target: Path, relative: Path) {
    && Leads(current, relative, target)
    && forall steps :: Leads(current, steps, target) ==> |relative| <= |steps|
  }

  /** The result leads to `target`, and no other way of going up and down takes fewer steps. */
  lemma RelativeIsShortest(target: Path, current: Path)
    requires Canonical(target) && Canonical(current) && Anchor(target) == Anchor(current)
    ensures IsShortest(current, target, Collect(Components(target, current)))
  {
    hide Resolve, Collect, Components, Canonical, Anchor;
    RelativeShape(target, current);
    ResolveReached(target, current);
    CommonPrefixSelf(target);
    forall steps | Leads(current, steps, target)
      ensures |UpAndDown(target, current)| <= |steps|
    {
      StepsCoverDistance(current, target, steps);
    }
  }

  // ----- a current path that keeps its leading `.`

  /** A `current` of the form `./names` is outside the canonical case: there the answer leads from it
      to `./target` exactly when `current` has no further name or begins with the target's name. */
  lemma DottedCurrentIff(target: Path, names: Path)
    requires Named(target) && Named(names)
    ensures var current := [CurDir] + names;
            Resolve(current, Collect(Components(target, current))) == [CurDir] + target
            <==> target != [] && (names == [] || names[0] == target[0])
  {
    if target == [] {
      DottedCurrentEmptyTarget(names);
    } else {
      var r := DottedAnswer(target, names);
      SecondDiffers(r, target[0], target[1..]);
      assert [CurDir, target[0]] + target[1..] == [CurDir] + target;
    }
  }

  lemma SecondDiffers(a: Component, b: Component, rest: Path)
    ensures [CurDir, a] + rest == [CurDir, b] + rest <==> a == b
  {
    assert ([CurDir, a] + rest)[1] == a && ([CurDir, b] + rest)[1] == b;
  }

  lemma DottedComponents(target: Path, names: Path)
    requires Named(target) && Named(names) && target != []
    ensures Components(target, [CurDir] + names) == [target[0]] + (Ups(|names|) + target[1..])
  {
    var current := [CurDir] + names;
    assert CommonPrefix(target, current) == 0;
    assert target[0..] == target && current[0..] == current && current[1..] == names;
    assert AfterDot(target[1..], names) == Ups(|names|) + target[1..];
  }

  lemma CollectPlain(steps: Path)
    requires Plain(steps)
    ensures Collect(steps) == steps
  {
    PushPlain([], steps);
    assert [] + steps == steps;
  }

  lemma ClimbIsPlain(t0: Component, n: nat, rest: Path)
    requires t0.Normal? && Named(rest)
    ensures Plain([t0] + (Ups(n) + rest))
  {
  }

  lemma DottedAnswer(target: Path, names: Path) returns (r: Component)
    requires Named(target) && Named(names) && target != []
    ensures r == if names == [] then target[0] else names[0]
    ensures Resolve([CurDir] + names, Collect(Components(target, [CurDir] + names))) == [CurDir, r] + target[1..]
  {
    r := if names == [] then target[0] else names[0];
    DottedComponents(target, names);
    ClimbIsPlain(target[0], |names|, target[1..]);
    CollectPlain([target[0]] + (Ups(|names|) + target[1..]));
    DottedClimb(target[0], target[1..], names, r);
  }

  lemma DottedClimb(t0: Component, rest: Path, names: Path, r: Component)
    requires t0.Normal? && Named(rest) && Named(names) && r == if names == [] then t0 else names[0]
    ensures Resolve([CurDir] + names, [t0] + (Ups(|names|) + rest)) == [CurDir, r] + rest
  {
    hide PushAll, Resolve;
    var current := [CurDir] + names;
    var start := current + [t0];
    ResolveAppend(current, [t0], Ups(|names|) + rest);
    ResolveNamed(current, [t0]);
    assert start[2..] == (names + [t0])[1..];
    ResolveClimb(start, 2, rest);
    assert start[..2] == [CurDir, r];
  }

  lemma DottedCurrentEmptyTarget(names: Path)
    requires Named(names)
    ensures var current := [CurDir] + names;
            Resolve(current, Collect(Components([], current))) == [CurDir, ParentDir]
  {
    hide PushAll, Collect;
    var current := [CurDir] + names;
    var ups := Ups(|names|) + [ParentDir];
    assert current[0..] == current;
    assert Components([], current) == Ups(|names| + 1) == ups;
    CollectPlain(ups);
    ResolveAppend(current, Ups(|names|), [ParentDir]);
    assert current[1..] == names && [ParentDir][..0] == [];
    ResolveUps(current, |names|);
  }

  // ----- paths for which the answer is wrong

  /** From a place on a drive the answer for a rooted path stays on that drive. */
  lemma DriveKept()
    ensures var target, current := [RootDir, Normal("a")], [Prefix("C:"), RootDir, Normal("b")];
            && Canonical(target) && Canonical(current)
            && Collect(Components(target, current)) == target
            && Resolve(current, target) == [Prefix("C:"), RootDir, Normal("a")]
  {
    var target, current := [RootDir, Normal("a")], [Prefix("C:"), RootDir, Normal("b")];
    hide Collect, PushAll, Components, CommonPrefix;
    assert AnchorLength(target) == 1 && AnchorLength(current) == 2;
    DifferentAnchors(target, current);
    FollowAbsolute(Ups(3), target);
    assert target[..1] == [RootDir] && [RootDir][..0] == [];
    assert Resolve(current, [RootDir]) == [Prefix("C:"), RootDir];
  }

  /** From `./b` the answer for `a` is `a/..`, which leads back to `./b`. */
  lemma DottedCurrentMisses()
    ensures var target, current := [Normal("a")], [CurDir, Normal("b")];
            && Collect(Components(target, current)) == [Normal("a"), ParentDir]
            && Resolve(current, [Normal("a"), ParentDir]) == current
  {
    var target, current, answer := [Normal("a")], [CurDir, Normal("b")], [Normal("a"), ParentDir];
    assert target[0..] == target && current[0..] == current;
    assert current[1..] == [Normal("b")] && target[1..] == [];
    assert Components(target, current) == [Normal("a")] + AfterDot([], [Normal("b")]) == answer;
    CollectPlain(answer);
    assert answer[..1] == [Normal("a")] && [Normal("a")][..0] == [];
    assert Resolve(current, [Normal("a")]) == current + [Normal("a")];
  }
}
