/** The range tracker: which account names have their history recorded.
    `_tracked_accounts` is an ordered map from a range's first name to its
    last name. It is modelled as the sequence of its entries in key order;
    keys strictly increase, as they do in any ordered map. */
module AccountRanges {
  import opened AccountNames

  /** One tracked range, both ends included. */
  datatype AccountRange = AccountRange(from: Name, to: Name)

  /** The ordered-map invariant: keys strictly increase. */
  predicate SortedKeys(m: seq<AccountRange>) {
    forall j, k :: 0 <= j < k < |m| ==> Less(m[j].from, m[k].from)
  }

  /** Ranges do not overlap: each ends before the next one starts. The
      configuration is expected to respect this; nothing enforces it. */
  predicate Disjoint(m: seq<AccountRange>) {
    forall j, k :: 0 <= j < k < |m| ==> Less(m[j].to, m[k].from)
  }

  /** `from <= name <= to`, the containment test of the dispatcher. */
  predicate InRange(r: AccountRange, name: Name) {
    LessEq(r.from, name) && LessEq(name, r.to)
  }

  /** The ordered map's `lower_bound`: the position of the first entry whose
      key is not less than `name`, or `|m|` (the end) when there is none. */
  function LowerBound(m: seq<AccountRange>, name: Name): (i: nat)
    ensures i <= |m|
    ensures forall j :: 0 <= j < i ==> Less(m[j].from, name)
    ensures i < |m| ==> !Less(m[i].from, name)
  {
    if |m| == 0 || !Less(m[0].from, name) then 0
    else 1 + LowerBound(m[1..], name)
  }

  /** The entry the containment test looks at: the lower bound, stepped back
      by one unless it is the first entry or its key is exactly `name`. */
  function CheckedIndex(m: seq<AccountRange>, name: Name): (i: nat)
    ensures i <= |m|
    ensures |m| > 0 ==> i < |m|
  {
    var lb := LowerBound(m, name);
    if lb != 0 && ((lb != |m| && m[lb].from != name) || lb == |m|) then lb - 1 else lb
  }

  /** Whether an impacted name is tracked: every name when no range is
      configured, otherwise the containment test on the checked entry. */
  predicate IsTracked(m: seq<AccountRange>, name: Name) {
    |m| == 0 ||
    (var i := CheckedIndex(m, name); i != |m| && InRange(m[i], name))
  }

  /** Some configured range holds `name`. */
  predicate SomeRangeHolds(m: seq<AccountRange>, name: Name) {
    exists k :: 0 <= k < |m| && InRange(m[k], name)
  }

  /** An empty range map tracks every name. */
  lemma EmptyTracksEveryone(name: Name)
    ensures IsTracked([], name)
  {
  }

  /** The procedure never reports a name that no range holds. */
  lemma TrackedIsContained(m: seq<AccountRange>, name: Name)
    requires |m| > 0 && IsTracked(m, name)
    ensures SomeRangeHolds(m, name)
  {
    var i := CheckedIndex(m, name);
    assert InRange(m[i], name);
  }

  /** The lower bound of a sorted map is the one position that separates the
      keys below `name` from the others. */
  lemma LowerBoundAt(m: seq<AccountRange>, name: Name, k: nat)
    requires SortedKeys(m) && k < |m|
    requires k > 0 ==> Less(m[k - 1].from, name)
    requires !Less(m[k].from, name)
    ensures LowerBound(m, name) == k
  {
    var lb := LowerBound(m, name);
    if lb < k - 1 {
      LessTransitive(m[lb].from, m[k - 1].from, name);
    }
  }

  /** A lookup that hits a range's first name exactly checks that range: the
      lower bound is not stepped back. */
  lemma ExactStartNotDecremented(m: seq<AccountRange>, k: nat)
    requires SortedKeys(m) && k < |m|
    ensures CheckedIndex(m, m[k].from) == k
    ensures IsTracked(m, m[k].from) <==> LessEq(m[k].from, m[k].to)
  {
    LessIrreflexive(m[k].from);
    LowerBoundAt(m, m[k].from, k);
  }

  /** A name above every range start is checked against the last range. */
  lemma PastTheLastStart(m: seq<AccountRange>, name: Name)
    requires |m| > 0
    requires Less(m[|m| - 1].from, name)
    requires SortedKeys(m)
    ensures CheckedIndex(m, name) == |m| - 1
    ensures IsTracked(m, name) <==> LessEq(name, m[|m| - 1].to)
  {
    var lb := LowerBound(m, name);
    if lb < |m| {
      if lb < |m| - 1 {
        LessTransitive(m[lb].from, m[|m| - 1].from, name);
      }
    }
  }

  /** In particular a name past the end of the last range is not tracked. */
  lemma PastTheEndNotTracked(m: seq<AccountRange>, name: Name)
    requires |m| > 0 && SortedKeys(m)
    requires LessEq(m[|m| - 1].from, m[|m| - 1].to) && Less(m[|m| - 1].to, name)
    ensures !IsTracked(m, name)
  {
    LessEqLessTransitive(m[|m| - 1].from, m[|m| - 1].to, name);
    PastTheLastStart(m, name);
    LessAsymmetric(m[|m| - 1].to, name);
  }

  /** A name below the first range start is not tracked: there is no earlier
      range to step back to. */
  lemma BeforeTheFirstStartNotTracked(m: seq<AccountRange>, name: Name)
    requires |m| > 0 && Less(name, m[0].from)
    ensures !IsTracked(m, name)
  {
    LessAsymmetric(name, m[0].from);
    NotLessIsGreaterOrEqual(m[0].from, name);
    assert LowerBound(m, name) == 0;
  }

  /** An inverted range (`from > to`) holds no name. */
  lemma InvertedRangeHoldsNothing(r: AccountRange, name: Name)
    requires Less(r.to, r.from)
    ensures !InRange(r, name)
  {
    if InRange(r, name) {
      LessEqTransitive(r.from, name, r.to);
      LessAsymmetric(r.to, r.from);
    }
  }

  /** So a lookup that lands on an inverted range reports "not tracked". */
  lemma InvertedRangeNeverMatches(m: seq<AccountRange>, name: Name)
    requires |m| > 0
    requires Less(m[CheckedIndex(m, name)].to, m[CheckedIndex(m, name)].from)
    ensures !IsTracked(m, name)
  {
    InvertedRangeHoldsNothing(m[CheckedIndex(m, name)], name);
  }

  /** An inverted range is not inert: it hides names that the range before
      it holds. With `["a","m"]` and the inverted `["c","b"]`, the lookup of
      `"d"` runs past every start, steps back to `["c","b"]` and fails, though
      `["a","m"]` holds `"d"`. */
  lemma InvertedRangeShadowsEarlier()
    ensures var m := [AccountRange("a", "m"), AccountRange("c", "b")];
            SortedKeys(m) && !IsTracked(m, "d") && SomeRangeHolds(m, "d")
  {
    var m := [AccountRange("a", "m"), AccountRange("c", "b")];
    assert Less("a", "c") && Less("a", "d") && Less("c", "d") && Less("b", "d") && Less("d", "m");
    assert LowerBound(m, "d") == 2;
    assert !InRange(m[1], "d");
    assert InRange(m[0], "d");
  }

  /** The main property: for sorted ranges, each ending before the next one
      starts, the lower-bound procedure decides exactly "some range holds
      the name" (or every name, when no range is configured). */
  lemma TrackedIffSomeRangeHolds(m: seq<AccountRange>, name: Name)
    requires SortedKeys(m) && Disjoint(m)
    ensures IsTracked(m, name) <==> (|m| == 0 || SomeRangeHolds(m, name))
  {
    if |m| > 0 {
      if IsTracked(m, name) {
        TrackedIsContained(m, name);
      }
      if SomeRangeHolds(m, name) {
        var k :| 0 <= k < |m| && InRange(m[k], name);
        ContainedIsTracked(m, name, k);
      }
    }
  }

  lemma ContainedIsTracked(m: seq<AccountRange>, name: Name, k: nat)
    requires SortedKeys(m) && Disjoint(m)
    requires k < |m| && InRange(m[k], name)
    ensures IsTracked(m, name)
  {
    var lb := LowerBound(m, name);
    // the holding range cannot lie beyond the lower bound
    if lb < k {
      NotLessIsGreaterOrEqual(m[lb].from, name);
      LessEqLessTransitive(name, m[lb].from, m[k].from);
      LessEqLessTransitive(m[k].from, name, m[k].from);
      LessIrreflexive(m[k].from);
    }
    assert k <= lb;
    if lb < |m| && m[lb].from == name {
      if k < lb {
        // m[k].to < m[lb].from == name <= m[k].to
        LessLessEqTransitive(m[k].to, name, m[k].to);
        LessIrreflexive(m[k].to);
      }
      assert CheckedIndex(m, name) == k;
    } else {
      assert CheckedIndex(m, name) == lb - 1;
      if k < lb - 1 {
        // m[k].to < m[lb - 1].from < name <= m[k].to
        LessTransitive(m[k].to, m[lb - 1].from, name);
        LessLessEqTransitive(m[k].to, name, m[k].to);
        LessIrreflexive(m[k].to);
      }
    }
  }
}
