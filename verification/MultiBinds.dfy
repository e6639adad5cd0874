/** The binds that a walk comes upon, and what collecting them in order amounts to: for a backend itself, and
    through the enums, which do not always push a value under its declared type. */
module MultiBinds {
  import opened Prelude
  import opened QueryPass

  /** A bind as the walk comes upon it; `dispatched` when it lies within a backend's own impl. */
  datatype Seen = Seen(dispatched: bool, sqlType: SqlType, value: Value)

  /** The backend refuses to serialize the value. */
  predicate Refuses(d: Dialect, bind: Seen) { bind.value.LeafValue? && d in bind.value.failsOn }

  /** The enums collect a value that was never set. */
  predicate Unset(bind: Seen) { !bind.dispatched && bind.value.UnsetValue? }

  /** The bind as it is collected. Through the enums it has the type that its `ToSql` impl ends in. */
  function Bound(d: Dialect, multi: bool, bind: Seen): Bind {
    match bind.value
    case NoneValue => Bind(MetadataOf(d, bind.sqlType.base), None)
    case LeafValue(leaf, _) =>
      Bind(MetadataOf(d, if multi && !bind.dispatched then LeafBase(leaf) else bind.sqlType.base), Some(Encoded(d, leaf)))
    case UnsetValue => Bind(MetadataOf(d, bind.sqlType.base), EmptyOutput(d))
  }

  /** One bind added to a list of collected ones. */
  function PushSeen(d: Dialect, multi: bool, bind: Seen, binds: seq<Bind>): Outcome<seq<Bind>> {
    if multi && Unset(bind) then Panicked
    else if Refuses(d, bind) then Failed
    else Done(binds + [Bound(d, multi, bind)])
  }

  function PushEach(d: Dialect, multi: bool, seen: seq<Seen>, binds: seq<Bind>): Outcome<seq<Bind>> {
    if seen == [] then Done(binds)
    else
      var pushed :- PushSeen(d, multi, seen[0], binds);
      PushEach(d, multi, seen[1..], pushed)
  }

  // ----- what a backend collects

  /** How many binds are pushed before one is refused. */
  function Accepted(d: Dialect, binds: seq<Seen>): (n: nat)
    ensures n <= |binds| && (forall k :: 0 <= k < n ==> !Refuses(d, binds[k])) && (n < |binds| ==> Refuses(d, binds[n]))
  {
    if binds == [] || Refuses(d, binds[0]) then 0 else 1 + Accepted(d, binds[1..])
  }

  /** A bind that was never set comes before any that is refused. */
  predicate ReachesUnset(d: Dialect, binds: seq<Seen>) {
    exists k :: 0 <= k < Accepted(d, binds) && Unset(binds[k])
  }

  function BoundEach(d: Dialect, multi: bool, binds: seq<Seen>): (r: seq<Bind>)
    ensures |r| == |binds| && forall k :: 0 <= k < |r| ==> r[k] == Bound(d, multi, binds[k])
  {
    if binds == [] then [] else [Bound(d, multi, binds[0])] + BoundEach(d, multi, binds[1..])
  }

  function ValuesOf(binds: seq<Seen>): (r: seq<Value>)
    ensures |r| == |binds| && forall k :: 0 <= k < |r| ==> r[k] == binds[k].value
  {
    if binds == [] then [] else [binds[0].value] + ValuesOf(binds[1..])
  }

  /** What collecting amounts to: a panic at a value that was never set, an error at a value that is refused,
      whichever comes first, and otherwise all binds in order behind those already there. */
  lemma {:induction false} CollectsEach(d: Dialect, multi: bool, seen: seq<Seen>, binds: seq<Bind>)
    ensures PushEach(d, multi, seen, binds) ==
              if multi && ReachesUnset(d, seen) then Panicked
              else if Accepted(d, seen) < |seen| then Failed
              else Done(binds + BoundEach(d, multi, seen))
  {
    if seen == [] {
      assert binds + [] == binds;
    } else {
      UnsetFirst(d, seen);
      var pushed := PushSeen(d, multi, seen[0], binds);
      if pushed.Done? {
        CollectsEach(d, multi, seen[1..], pushed.value);
        var first, rest := [Bound(d, multi, seen[0])], BoundEach(d, multi, seen[1..]);
        assert (binds + first) + rest == binds + (first + rest);
      }
    }
  }

  lemma UnsetFirst(d: Dialect, binds: seq<Seen>)
    requires binds != []
    ensures ReachesUnset(d, binds) <==> !Refuses(d, binds[0]) && (Unset(binds[0]) || ReachesUnset(d, binds[1..]))
  {
    var rest := binds[1..];
    if !Refuses(d, binds[0]) {
      if k :| 0 <= k < Accepted(d, binds) && Unset(binds[k]) {
        assert k > 0 ==> rest[k - 1] == binds[k];
      }
      if k :| 0 <= k < Accepted(d, rest) && Unset(rest[k]) {
        assert binds[k + 1] == rest[k];
      }
    }
  }

  // ----- when the enums make no difference

  /** The backend stores the type that the value's `ToSql` impl ends in as it stores the declared one. */
  predicate Agrees(d: Dialect, bind: Seen) {
    !bind.dispatched && bind.value.LeafValue? ==> MetadataOf(d, LeafBase(bind.value.leaf)) == MetadataOf(d, bind.sqlType.base)
  }

  /** No value that was never set is reached and, unless one is refused, all types agree. */
  predicate SameBinds(d: Dialect, binds: seq<Seen>) {
    !ReachesUnset(d, binds) && (Accepted(d, binds) == |binds| ==> forall k :: 0 <= k < |binds| ==> Agrees(d, binds[k]))
  }

  /** Collecting through the enums is collecting directly exactly for these binds. */
  lemma SameBindsIff(d: Dialect, seen: seq<Seen>, binds: seq<Bind>)
    ensures PushEach(d, true, seen, binds) == PushEach(d, false, seen, binds) <==> SameBinds(d, seen)
  {
    CollectsEach(d, true, seen, binds);
    CollectsEach(d, false, seen, binds);
    if Accepted(d, seen) == |seen| && !ReachesUnset(d, seen) {
      var multi, own := BoundEach(d, true, seen), BoundEach(d, false, seen);
      assert (binds + multi)[|binds|..] == multi && (binds + own)[|binds|..] == own;
      forall k | 0 <= k < |seen|
        ensures multi[k] == own[k] <==> Agrees(d, seen[k])
      {
        assert !Unset(seen[k]);
      }
    }
  }
}
