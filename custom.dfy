/** Custom parameter metadata: a behavior lists alternative parameter sets,
    and a binding is legal when its two parameters satisfy one of them. */
module CustomParams {
  import opened CTypes
  import opened Params

  /** What one value descriptor accepts. `UnlistedKind` stands for a type tag
      outside the three the matcher's `switch` names: it accepts nothing. */
  datatype ValueKind =
    | StandardValue(domain: StandardDomain)
    | ExactValue(value: u32)
    | RangeValue(min: u32, max: u32)
    | UnlistedKind(code: int)

  /** A value descriptor: position 0 constrains the first parameter, any other
      position the second. */
  datatype ValueMetadata = ValueMetadata(position: nat, kind: ValueKind)

  /** One alternative: its descriptors, in declaration order. */
  type ParamSet = seq<ValueMetadata>

  datatype Position = Param1 | Param2

  function PositionOf(d: ValueMetadata): Position {
    if d.position == 0 then Param1 else Param2
  }

  /** Whether a descriptor of kind `kind` accepts the value `param`. */
  predicate Accepts(cfg: Config, kind: ValueKind, param: u32) {
    match kind
    case StandardValue(domain) => ValidateStandardParam(cfg, domain, param) == 0
    case ExactValue(v) => param == v
    case RangeValue(lo, hi) => lo <= param <= hi
    case UnlistedKind(_) => false
  }

  // ----- the declarative reading of a parameter set -----

  /** Some descriptor of `pset` constrains position `pos`. */
  predicate Targeted(pset: ParamSet, pos: Position) {
    exists v :: 0 <= v < |pset| && PositionOf(pset[v]) == pos
  }

  /** Some descriptor of `pset` at position `pos` accepts `param`. */
  predicate MatchedAt(cfg: Config, pset: ParamSet, pos: Position, param: u32) {
    exists v :: 0 <= v < |pset| && PositionOf(pset[v]) == pos && Accepts(cfg, pset[v].kind, param)
  }

  /** A position is satisfied when one of its alternatives accepts the value,
      or when nothing constrains it and the value is 0. */
  predicate PositionOk(cfg: Config, pset: ParamSet, pos: Position, param: u32) {
    MatchedAt(cfg, pset, pos, param) || (!Targeted(pset, pos) && param == 0)
  }

  predicate SetSatisfied(cfg: Config, pset: ParamSet, p1: u32, p2: u32) {
    PositionOk(cfg, pset, Param1, p1) && PositionOk(cfg, pset, Param2, p2)
  }

  predicate AnySetSatisfied(cfg: Config, sets: seq<ParamSet>, p1: u32, p2: u32) {
    exists s :: 0 <= s < |sets| && SetSatisfied(cfg, sets[s], p1, p2)
  }

  /** The result the matcher promises: -ENODEV without metadata, 0 when some
      set is satisfied, -EINVAL otherwise (in particular for zero sets). */
  function CustomResult(cfg: Config, custom: Option<seq<ParamSet>>, p1: u32, p2: u32): int {
    match custom
    case None => -ENODEV
    case Some(sets) => if AnySetSatisfied(cfg, sets, p1, p2) then 0 else -EINVAL
  }

  // ----- the operational reading: the four flags of a scan -----

  /** `had1`/`had2`: a descriptor for that position was seen;
      `matched1`/`matched2`: one of them accepted the parameter. */
  datatype Flags = Flags(had1: bool, had2: bool, matched1: bool, matched2: bool)

  const NoFlags := Flags(false, false, false, false)

  /** The flags after looking at one more descriptor. */
  function Step(cfg: Config, f: Flags, d: ValueMetadata, p1: u32, p2: u32): Flags {
    if d.position == 0 then
      f.(had1 := true, matched1 := f.matched1 || Accepts(cfg, d.kind, p1))
    else
      f.(had2 := true, matched2 := f.matched2 || Accepts(cfg, d.kind, p2))
  }

  /** The flags after looking at every descriptor of `pset`, without stopping early. */
  function Scan(cfg: Config, pset: ParamSet, p1: u32, p2: u32): Flags {
    if |pset| == 0 then NoFlags
    else Step(cfg, Scan(cfg, pset[..|pset| - 1], p1, p2), pset[|pset| - 1], p1, p2)
  }

  /** The verdict the matcher draws from the flags of a set. */
  predicate Satisfied(f: Flags, p1: u32, p2: u32) {
    (f.matched1 || (!f.had1 && p1 == 0)) && (f.matched2 || (!f.had2 && p2 == 0))
  }

  /** The flags of a full scan are exactly the declarative facts about the set. */
  lemma {:induction false} ScanMeaning(cfg: Config, pset: ParamSet, p1: u32, p2: u32)
    ensures Scan(cfg, pset, p1, p2).had1 == Targeted(pset, Param1)
    ensures Scan(cfg, pset, p1, p2).had2 == Targeted(pset, Param2)
    ensures Scan(cfg, pset, p1, p2).matched1 == MatchedAt(cfg, pset, Param1, p1)
    ensures Scan(cfg, pset, p1, p2).matched2 == MatchedAt(cfg, pset, Param2, p2)
  {
    if |pset| > 0 {
      var n := |pset| - 1;
      var pre := pset[..n];
      ScanMeaning(cfg, pre, p1, p2);
      forall pos: Position
        ensures Targeted(pset, pos) == (Targeted(pre, pos) || PositionOf(pset[n]) == pos)
      {
        if Targeted(pset, pos) && PositionOf(pset[n]) != pos {
          var v :| 0 <= v < |pset| && PositionOf(pset[v]) == pos;
          assert pre[v] == pset[v];
        }
        if Targeted(pre, pos) {
          var v :| 0 <= v < |pre| && PositionOf(pre[v]) == pos;
          assert pset[v] == pre[v];
        }
      }
      forall pos: Position, param: u32
        ensures MatchedAt(cfg, pset, pos, param)
             == (MatchedAt(cfg, pre, pos, param) || (PositionOf(pset[n]) == pos && Accepts(cfg, pset[n].kind, param)))
      {
        if MatchedAt(cfg, pset, pos, param) && !(PositionOf(pset[n]) == pos && Accepts(cfg, pset[n].kind, param)) {
          var v :| 0 <= v < |pset| && PositionOf(pset[v]) == pos && Accepts(cfg, pset[v].kind, param);
          assert pre[v] == pset[v];
        }
        if MatchedAt(cfg, pre, pos, param) {
          var v :| 0 <= v < |pre| && PositionOf(pre[v]) == pos && Accepts(cfg, pre[v].kind, param);
          assert pset[v] == pre[v];
        }
      }
    }
  }

  /** Scanning every descriptor decides exactly the declarative condition. */
  lemma ScanVerdict(cfg: Config, pset: ParamSet, p1: u32, p2: u32)
    ensures Satisfied(Scan(cfg, pset, p1, p2), p1, p2) == SetSatisfied(cfg, pset, p1, p2)
  {
    ScanMeaning(cfg, pset, p1, p2);
  }

  /** Stopping the scan once both parameters are matched does not change the
      verdict: the flags of the prefix and of the whole set agree on it. */
  lemma EarlyExitVerdict(cfg: Config, pset: ParamSet, k: nat, p1: u32, p2: u32)
    requires k <= |pset|
    requires Scan(cfg, pset[..k], p1, p2).matched1 && Scan(cfg, pset[..k], p1, p2).matched2
    ensures Satisfied(Scan(cfg, pset, p1, p2), p1, p2)
    ensures Satisfied(Scan(cfg, pset[..k], p1, p2), p1, p2)
  {
    var pre := pset[..k];
    ScanMeaning(cfg, pre, p1, p2);
    ScanMeaning(cfg, pset, p1, p2);
    var v1 :| 0 <= v1 < |pre| && PositionOf(pre[v1]) == Param1 && Accepts(cfg, pre[v1].kind, p1);
    var v2 :| 0 <= v2 < |pre| && PositionOf(pre[v2]) == Param2 && Accepts(cfg, pre[v2].kind, p2);
    assert pset[v1] == pre[v1] && pset[v2] == pre[v2];
  }

  /** Matches a binding's parameters against custom metadata: the sets in
      order, each scanned until both parameters are matched. */
  method ValidateCustomParams(cfg: Config, custom: Option<seq<ParamSet>>, p1: u32, p2: u32) returns (r: int)
    ensures custom.None? ==> r == -ENODEV
    ensures custom.Some? ==> (r == 0 <==> AnySetSatisfied(cfg, custom.value, p1, p2))
    ensures custom.Some? && r != 0 ==> r == -EINVAL
  {
    if custom.None? {
      return -ENODEV;
    }
    var sets := custom.value;
    var s := 0;
    while s < |sets|
      invariant 0 <= s <= |sets|
      invariant forall t :: 0 <= t < s ==> !SetSatisfied(cfg, sets[t], p1, p2)
    {
      var pset := sets[s];
      var had1, had2 := false, false;
      var matched1, matched2 := false, false;
      var v := 0;
      while v < |pset| && (!matched1 || !matched2)
        invariant 0 <= v <= |pset|
        invariant Flags(had1, had2, matched1, matched2) == Scan(cfg, pset[..v], p1, p2)
      {
        var meta := pset[v];
        var param := if meta.position == 0 then p1 else p2;
        if meta.position == 0 { had1 := true; } else { had2 := true; }
        var ok := false;
        match meta.kind {
          case StandardValue(domain) =>
            if ValidateStandardParam(cfg, domain, param) == 0 { ok := true; }
          case ExactValue(value) =>
            if param == value { ok := true; }
          case RangeValue(lo, hi) =>
            if param >= lo && param <= hi { ok := true; }
          case UnlistedKind(_) =>
        }
        if ok {
          if meta.position == 0 { matched1 := true; } else { matched2 := true; }
        }
        assert pset[..v + 1][..v] == pset[..v];
        v := v + 1;
      }
      assert pset[..|pset|] == pset;
      ScanVerdict(cfg, pset, p1, p2);
      if v < |pset| {
        EarlyExitVerdict(cfg, pset, v, p1, p2);
      }
      if (matched1 || (!had1 && p1 == 0)) && (matched2 || (!had2 && p2 == 0)) {
        return 0;
      }
      s := s + 1;
    }
    return -EINVAL;
  }

  // ----- properties of the matcher's specification -----

  /** Custom metadata that declares no set accepts nothing: -EINVAL, not -ENODEV. */
  lemma NoSetsRejects(cfg: Config, p1: u32, p2: u32)
    ensures CustomResult(cfg, Some([]), p1, p2) == -EINVAL
  {
  }

  /** The order of the sets does not affect the verdict, only the work done. */
  lemma SetOrderIrrelevant(cfg: Config, sets1: seq<ParamSet>, sets2: seq<ParamSet>, p1: u32, p2: u32)
    requires multiset(sets1) == multiset(sets2)
    ensures CustomResult(cfg, Some(sets1), p1, p2) == CustomResult(cfg, Some(sets2), p1, p2)
  {
    forall a: seq<ParamSet>, b: seq<ParamSet> | multiset(a) == multiset(b) && AnySetSatisfied(cfg, a, p1, p2)
      ensures AnySetSatisfied(cfg, b, p1, p2)
    {
      var s :| 0 <= s < |a| && SetSatisfied(cfg, a[s], p1, p2);
      assert a[s] in multiset(b);
      var t :| 0 <= t < |b| && b[t] == a[s];
    }
  }

  /** The descriptors of a set are alternatives per position: their order
      does not affect whether the set is satisfied. */
  lemma DescriptorOrderIrrelevant(cfg: Config, set1: ParamSet, set2: ParamSet, p1: u32, p2: u32)
    requires multiset(set1) == multiset(set2)
    ensures SetSatisfied(cfg, set1, p1, p2) == SetSatisfied(cfg, set2, p1, p2)
  {
    forall a: ParamSet, b: ParamSet, pos: Position, param: u32 | multiset(a) == multiset(b)
      ensures Targeted(a, pos) ==> Targeted(b, pos)
      ensures MatchedAt(cfg, a, pos, param) ==> MatchedAt(cfg, b, pos, param)
    {
      if Targeted(a, pos) {
        var v :| 0 <= v < |a| && PositionOf(a[v]) == pos;
        assert a[v] in multiset(b);
        var w :| 0 <= w < |b| && b[w] == a[v];
      }
      if MatchedAt(cfg, a, pos, param) {
        var v :| 0 <= v < |a| && PositionOf(a[v]) == pos && Accepts(cfg, a[v].kind, param);
        assert a[v] in multiset(b);
        var w :| 0 <= w < |b| && b[w] == a[v];
      }
    }
  }

  /** Two sets on the first parameter, an exact value 5 and the range 10..20:
      (5, 0) passes by the first, (15, 0) by the second, (7, 0) by neither. */
  lemma ExactOrRangeExample(cfg: Config)
    ensures CustomResult(cfg, Some([[ValueMetadata(0, ExactValue(5))], [ValueMetadata(0, RangeValue(10, 20))]]), 5, 0) == 0
    ensures CustomResult(cfg, Some([[ValueMetadata(0, ExactValue(5))], [ValueMetadata(0, RangeValue(10, 20))]]), 15, 0) == 0
    ensures CustomResult(cfg, Some([[ValueMetadata(0, ExactValue(5))], [ValueMetadata(0, RangeValue(10, 20))]]), 7, 0) == -EINVAL
  {
    var s1: ParamSet := [ValueMetadata(0, ExactValue(5))];
    var s2: ParamSet := [ValueMetadata(0, RangeValue(10, 20))];
    var sets := [s1, s2];
    assert SetSatisfied(cfg, sets[0], 5, 0) by {
      assert PositionOf(s1[0]) == Param1 && Accepts(cfg, s1[0].kind, 5);
    }
    assert SetSatisfied(cfg, sets[1], 15, 0) by {
      assert PositionOf(s2[0]) == Param1 && Accepts(cfg, s2[0].kind, 15);
    }
  }

  /** A position without descriptors only admits 0: with the single set
      "first parameter is 5", (5, 0) passes and (5, 3) fails. */
  lemma UndeclaredPositionExample(cfg: Config)
    ensures CustomResult(cfg, Some([[ValueMetadata(0, ExactValue(5))]]), 5, 0) == 0
    ensures CustomResult(cfg, Some([[ValueMetadata(0, ExactValue(5))]]), 5, 3) == -EINVAL
  {
    var s1: ParamSet := [ValueMetadata(0, ExactValue(5))];
    var sets := [s1];
    assert !Targeted(s1, Param2) && !MatchedAt(cfg, s1, Param2, 3);
    assert SetSatisfied(cfg, sets[0], 5, 0) by {
      assert PositionOf(s1[0]) == Param1 && Accepts(cfg, s1[0].kind, 5);
    }
  }
}
