/**
  The state of a row_min accumulator as a value, and what feeding it rows and
  merging two of them means.

  The comparison `less` stands for lessString, whose definition is not part
  of this model. Every operation takes it as a parameter; the lemmas that
  rely on it ordering strings require it to be a strict total order.
 */
module RowMinSpec {
  import opened BlockResults
  import opened RowMinFunc

  ghost predicate Transitive(less: (string, string) -> bool) {
    forall a, b, c :: less(a, b) && less(b, c) ==> less(a, c)
  }

  ghost predicate StrictTotalOrder(less: (string, string) -> bool) {
    && (forall a :: !less(a, a))
    && Transitive(less)
    && (forall a, b :: a != b ==> less(a, b) || less(b, a))
  }

  /** The running minimum and the snapshot of the row that produced it. */
  datatype State = State(min: string, fields: seq<Field>)

  /** A row offered to the accumulator: its source value and its snapshot. */
  datatype Candidate = Candidate(value: string, fields: seq<Field>)

  /** A fresh accumulator. */
  const Initial: State := State("", [])

  /**
    needUpdateStateString: would `v` replace the running minimum `min`? An
    empty value never does; any other value does when there is no minimum
    yet, and otherwise exactly when it is less than the minimum (so, for a
    strict order, never the minimum itself).
   */
  predicate NeedUpdate(min: string, v: string, less: (string, string) -> bool): (r: bool)
    ensures v == "" ==> !r
    ensures v != "" && min == "" ==> r
    ensures min != "" ==> (r <==> v != "" && less(v, min))
    ensures (forall a :: !less(a, a)) ==> (r ==> v != min)
  {
    v != "" && (min == "" || less(v, min))
  }

  /** The bytes an accumulator holds: its minimum and every field name and value. */
  function StateSize(s: State): nat {
    ByteLen(s.min) + FieldsSize(s.fields)
  }

  /**
    One call of updateState: an empty candidate never wins; any non-empty
    candidate wins over an empty minimum; otherwise a candidate wins exactly
    when it is less than the minimum. A winner replaces minimum and snapshot
    together; a loser changes nothing.
   */
  function Step(s: State, c: Candidate, less: (string, string) -> bool): (r: State)
    ensures c.value == "" ==> r == s
    ensures s.min == "" && c.value != "" ==> r == State(c.value, c.fields)
    ensures s.min != "" && c.value != "" ==> (r == if less(c.value, s.min) then State(c.value, c.fields) else s)
    ensures s.min != "" ==> r.min != ""
  {
    if NeedUpdate(s.min, c.value, less) then State(c.value, c.fields) else s
  }

  /** Feeding the candidates one after another, first to last. */
  function Run(s: State, cs: seq<Candidate>, less: (string, string) -> bool): State {
    if cs == [] then s else Step(Run(s, cs[..|cs| - 1], less), cs[|cs| - 1], less)
  }

  /** mergeState: the destination adopts the source's minimum and snapshot
      together exactly when the source's minimum would win. */
  function Merge(dst: State, src: State, less: (string, string) -> bool): State {
    if NeedUpdate(dst.min, src.min, less) then src else dst
  }

  /** The minimum only moves downward: after any run it is the old minimum
      or a non-empty string less than it, and it never becomes empty again. */
  lemma {:induction false} RunNeverRaises(s: State, cs: seq<Candidate>, less: (string, string) -> bool)
    requires Transitive(less)
    ensures var r := Run(s, cs, less);
      r.min == s.min || (r.min != "" && (s.min == "" || less(r.min, s.min)))
    ensures s.min != "" ==> Run(s, cs, less).min != ""
  {
    if cs != [] {
      RunNeverRaises(s, cs[..|cs| - 1], less);
    }
  }

  ghost predicate LeastOf(m: string, cs: seq<Candidate>, less: (string, string) -> bool) {
    forall j :: 0 <= j < |cs| && cs[j].value != "" ==> !less(cs[j].value, m)
  }

  /** Row `i` is the first row holding its value. */
  ghost predicate FirstWithValue(cs: seq<Candidate>, i: int) {
    0 <= i < |cs| && forall j :: 0 <= j < i ==> cs[j].value != cs[i].value
  }

  /**
    What a fresh accumulator holds after a run: nothing when every value was
    empty; otherwise the least non-empty value, together with the snapshot
    of the first row that holds it.
   */
  lemma {:induction false} RunPicksFirstLeast(cs: seq<Candidate>, less: (string, string) -> bool)
    requires StrictTotalOrder(less)
    ensures var r := Run(Initial, cs, less);
      && (r.min == "" <==> forall j :: 0 <= j < |cs| ==> cs[j].value == "")
      && (r.min == "" ==> r == Initial)
      && (r.min != "" ==> exists i :: FirstWithValue(cs, i) && r == State(cs[i].value, cs[i].fields))
      && LeastOf(r.min, cs, less)
  {
    if cs != [] {
      var n := |cs| - 1;
      var prefix := cs[..n];
      RunPicksFirstLeast(prefix, less);
      var p := Run(Initial, prefix, less);
      var v := cs[n].value;
      assert forall j :: 0 <= j < n ==> cs[j] == prefix[j];
      if p.min == "" {
        if v != "" {
          assert FirstWithValue(cs, n);
        }
      } else {
        var i :| FirstWithValue(prefix, i) && p == State(prefix[i].value, prefix[i].fields);
        if v != "" && less(v, p.min) {
          assert FirstWithValue(cs, n);
        } else {
          assert FirstWithValue(cs, i);
        }
      }
    }
  }

  /** A step after a merge is a merge after the step (the heart of MergeMatchesSequential). */
  lemma StepAfterMerge(t: State, r: State, c: Candidate, less: (string, string) -> bool)
    requires StrictTotalOrder(less)
    ensures Step(Merge(t, r, less), c, less) == Merge(t, Step(r, c, less), less)
  {
  }

  /**
    Merging is taking the minimum: merging the accumulator of a later run
    into the one of an earlier run leaves exactly the state that feeding
    both runs' rows to one accumulator, in order, does.
   */
  lemma {:induction false} MergeMatchesSequential(s: State, xs: seq<Candidate>, ys: seq<Candidate>, less: (string, string) -> bool)
    requires StrictTotalOrder(less)
    ensures Merge(Run(s, xs, less), Run(Initial, ys, less), less) == Run(s, xs + ys, less)
  {
    if ys == [] {
      assert xs + ys == xs;
    } else {
      var n := |ys| - 1;
      MergeMatchesSequential(s, xs, ys[..n], less);
      assert (xs + ys)[..|xs + ys| - 1] == xs + ys[..n];
      StepAfterMerge(Run(s, xs, less), Run(Initial, ys[..n], less), ys[n], less);
    }
  }

  /** The order of a merge does not change the resulting minimum. */
  lemma MergeMinSymmetric(a: State, b: State, less: (string, string) -> bool)
    requires StrictTotalOrder(less)
    ensures Merge(a, b, less).min == Merge(b, a, less).min
  {
  }

  /** A run in which no value beats the current minimum changes nothing. */
  lemma {:induction false} RunWithoutWinner(s: State, cs: seq<Candidate>, less: (string, string) -> bool)
    requires forall j :: 0 <= j < |cs| ==> !NeedUpdate(s.min, cs[j].value, less)
    ensures Run(s, cs, less) == s
  {
    if cs != [] {
      RunWithoutWinner(s, cs[..|cs| - 1], less);
    }
  }

  /** The first row's value is not beaten by any later row. */
  ghost predicate FirstRowLeast(cs: seq<Candidate>, less: (string, string) -> bool) {
    |cs| > 0 &&
    forall j :: 0 <= j < |cs| ==>
      cs[j].value == cs[0].value || cs[j].value == "" || (cs[0].value != "" && !less(cs[j].value, cs[0].value))
  }

  /** When no row beats the first, a run is a single step with the first row. */
  lemma {:induction false} RunFirstRowLeast(s: State, cs: seq<Candidate>, less: (string, string) -> bool)
    requires StrictTotalOrder(less)
    requires FirstRowLeast(cs, less)
    ensures Run(s, cs, less) == Step(s, cs[0], less)
  {
    var n := |cs| - 1;
    if n == 0 {
      assert cs[..0] == [];
    } else {
      var prefix := cs[..n];
      assert prefix[0] == cs[0];
      assert FirstRowLeast(prefix, less);
      RunFirstRowLeast(s, prefix, less);
    }
  }

  /** anyDictValueWins: does some dictionary value beat `min`? */
  function AnyWins(min: string, ds: seq<string>, less: (string, string) -> bool): (r: bool)
    ensures r <==> exists k :: 0 <= k < |ds| && NeedUpdate(min, ds[k], less)
  {
    if ds == [] then false
    else AnyWins(min, ds[..|ds| - 1], less) || NeedUpdate(min, ds[|ds| - 1], less)
  }

  /** The pre-check updateStatsForAllRows makes before reading a column's rows. */
  predicate Prefilter(kind: ValueKind, min: string, less: (string, string) -> bool) {
    match kind
    case Dict(ds) => AnyWins(min, ds, less)
    case Summary(m) => NeedUpdate(min, m, less)
    case _ => true
  }

  /** The rows of a block as candidates, the source value taken from column `c`. */
  function Candidates(fetchFields: seq<string>, br: BlockResult, c: Column): (cs: seq<Candidate>)
    requires WellFormed(br) && ColumnOk(c, br.rows)
    ensures |cs| == br.rows
  {
    seq(br.rows, i requires 0 <= i < br.rows => Candidate(c.values[i], Snapshot(fetchFields, br, i)))
  }

  function SourceColumn(sm: StatsRowMin, br: BlockResult): Column {
    ColumnByName(br, sm.srcField)
  }

  /**
    updateStatsForAllRows as a function of the state. `timestampLess(m, min)`
    is the numeric pre-check of the `_time` shortcut: the timestamp rendered
    as `m` is earlier than the one `min` parses to (or `min` does not parse).
   */
  function AllRows(s: State, sm: StatsRowMin, br: BlockResult, less: (string, string) -> bool,
                   timestampLess: (string, string) -> bool): State
    requires WellFormed(br)
  {
    var c := SourceColumn(sm, br);
    if c.kind.Const? then
      if br.rows == 0 then s
      else Step(s, Candidate(c.values[0], Snapshot(sm.fetchFields, br, 0)), less)
    else if c.kind.Time? then
      if br.rows > 0 && timestampLess(c.kind.minTimestamp, s.min) then
        Step(s, Candidate(c.kind.minTimestamp, Snapshot(sm.fetchFields, br, 0)), less)
      else s
    else if Prefilter(c.kind, s.min, less) then
      Run(s, Candidates(sm.fetchFields, br, c), less)
    else s
  }

  /** The dictionary pre-check is sound: when no dictionary value wins, no row does. */
  lemma DictPrefilterSound(s: State, sm: StatsRowMin, br: BlockResult, less: (string, string) -> bool)
    requires WellFormed(br)
    requires SourceColumn(sm, br).kind.Dict?
    requires !Prefilter(SourceColumn(sm, br).kind, s.min, less)
    ensures Run(s, Candidates(sm.fetchFields, br, SourceColumn(sm, br)), less) == s
  {
    var c := SourceColumn(sm, br);
    var cs := Candidates(sm.fetchFields, br, c);
    forall j | 0 <= j < |cs| ensures !NeedUpdate(s.min, cs[j].value, less) {
      assert c.values[j] in c.kind.dictValues;
      var k :| 0 <= k < |c.kind.dictValues| && c.kind.dictValues[k] == c.values[j];
    }
    RunWithoutWinner(s, cs, less);
  }

  /** A summary minimum is a lower bound of the column's non-empty values. */
  ghost predicate SummaryIsLowerBound(c: Column, less: (string, string) -> bool) {
    c.kind.Summary? ==>
      c.kind.minValue != "" &&
      forall j :: 0 <= j < |c.values| && c.values[j] != "" ==> !less(c.values[j], c.kind.minValue)
  }

  /** The summary pre-check is sound: when the column minimum does not win, no row does. */
  lemma SummaryPrefilterSound(s: State, sm: StatsRowMin, br: BlockResult, less: (string, string) -> bool)
    requires StrictTotalOrder(less) && WellFormed(br)
    requires SourceColumn(sm, br).kind.Summary? && SummaryIsLowerBound(SourceColumn(sm, br), less)
    requires !Prefilter(SourceColumn(sm, br).kind, s.min, less)
    ensures Run(s, Candidates(sm.fetchFields, br, SourceColumn(sm, br)), less) == s
  {
    var c := SourceColumn(sm, br);
    var m := c.kind.minValue;
    var cs := Candidates(sm.fetchFields, br, c);
    forall j | 0 <= j < |cs| ensures !NeedUpdate(s.min, cs[j].value, less) {
    }
    RunWithoutWinner(s, cs, less);
  }

  /** The `_time` column of a block with rows keeps them in timestamp order: row 0 holds the earliest timestamp. */
  ghost predicate TimeSorted(c: Column, less: (string, string) -> bool) {
    c.kind.Time? && |c.values| > 0 ==>
      c.values[0] == c.kind.minTimestamp && c.kind.minTimestamp != "" &&
      forall j :: 0 <= j < |c.values| && c.values[j] != "" ==> !less(c.values[j], c.kind.minTimestamp)
  }

  /** The numeric timestamp pre-check lets through every timestamp that lessString would accept. */
  ghost predicate TimestampCheckAgrees(c: Column, min: string, less: (string, string) -> bool,
                                       timestampLess: (string, string) -> bool) {
    c.kind.Time? ==> (NeedUpdate(min, c.kind.minTimestamp, less) ==> timestampLess(c.kind.minTimestamp, min))
  }

  /**
    updateStatsForAllRows leaves exactly the state that calling
    updateStatsForRow for every row of the block in order leaves: the constant
    shortcut always, the dictionary and summary pre-checks when the summaries
    are what they claim, and the `_time` shortcut when row 0 holds the
    earliest timestamp and the numeric pre-check agrees with lessString.
   */
  lemma AllRowsMatchesRowByRow(s: State, sm: StatsRowMin, br: BlockResult, less: (string, string) -> bool,
                               timestampLess: (string, string) -> bool)
    requires StrictTotalOrder(less) && WellFormed(br)
    requires SummaryIsLowerBound(SourceColumn(sm, br), less) && TimeSorted(SourceColumn(sm, br), less)
    requires TimestampCheckAgrees(SourceColumn(sm, br), s.min, less, timestampLess)
    ensures AllRows(s, sm, br, less, timestampLess) == Run(s, Candidates(sm.fetchFields, br, SourceColumn(sm, br)), less)
  {
    var c := SourceColumn(sm, br);
    var cs := Candidates(sm.fetchFields, br, c);
    if br.rows == 0 {
      assert cs == [];
    } else if c.kind.Const? || c.kind.Time? {
      assert FirstRowLeast(cs, less);
      RunFirstRowLeast(s, cs, less);
      if c.kind.Time? && !timestampLess(c.kind.minTimestamp, s.min) {
        assert Step(s, cs[0], less) == s;
      }
    } else if c.kind.Dict? && !Prefilter(c.kind, s.min, less) {
      DictPrefilterSound(s, sm, br, less);
    } else if c.kind.Summary? && !Prefilter(c.kind, s.min, less) {
      SummaryPrefilterSound(s, sm, br, less);
    }
  }
}
