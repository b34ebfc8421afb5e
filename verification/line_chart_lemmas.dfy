/** What the legend policy and the zoom and pan handlers of the line chart guarantee. */
module LineChartLemmas {
  import opened Wrappers
  import opened LineChart

  /** No two series share a key (the key includes every label of the series). */
  ghost predicate DistinctKeys(data: seq<MetricResult>, nameOf: MetricResult -> string) {
    forall i, j :: 0 <= i < j < |data| ==> nameOf(data[i]) != nameOf(data[j])
  }

  /** Ctrl-click on a checked item appends its key, and the item becomes unchecked. */
  lemma CtrlClickHides(data: seq<MetricResult>, hidden: seq<string>, nameOf: MetricResult -> string,
                       colorOf: string -> string, i: nat)
    requires i < |data| && Labels(data, hidden, nameOf, colorOf)[i].checked
    ensures var after := NextHidden(hidden, Labels(data, hidden, nameOf, colorOf), true, i);
      after == hidden + [nameOf(data[i])] && !Labels(data, after, nameOf, colorOf)[i].checked
  {
  }

  /** Ctrl-click on an unchecked item removes every occurrence of its key and
      nothing else; the item becomes checked. */
  lemma CtrlClickShows(data: seq<MetricResult>, hidden: seq<string>, nameOf: MetricResult -> string,
                       colorOf: string -> string, i: nat)
    requires i < |data| && !Labels(data, hidden, nameOf, colorOf)[i].checked
    ensures var after := NextHidden(hidden, Labels(data, hidden, nameOf, colorOf), true, i);
      && nameOf(data[i]) !in after
      && (forall k :: k != nameOf(data[i]) ==> (k in after <==> k in hidden))
      && Labels(data, after, nameOf, colorOf)[i].checked
  {
  }

  /** Two ctrl-clicks on a checked item restore the hidden list exactly. */
  lemma {:induction false} CtrlClickTwiceFromChecked(data: seq<MetricResult>, hidden: seq<string>,
                                                     nameOf: MetricResult -> string, colorOf: string -> string, i: nat)
    requires i < |data| && Labels(data, hidden, nameOf, colorOf)[i].checked
    ensures var once := NextHidden(hidden, Labels(data, hidden, nameOf, colorOf), true, i);
      NextHidden(once, Labels(data, once, nameOf, colorOf), true, i) == hidden
  {
    var key := nameOf(data[i]);
    var once := NextHidden(hidden, Labels(data, hidden, nameOf, colorOf), true, i);
    assert once == hidden + [key];
    RemoveKeyAppended(hidden, key);
  }

  /** Removing a key from a list it was appended to, and which did not hold it, gives the list back. */
  lemma {:induction false} RemoveKeyAppended(s: seq<string>, key: string)
    requires key !in s
    ensures RemoveKey(s + [key], key) == s
  {
    if s == [] {
      assert RemoveKey([key], key) == [] + RemoveKey([], key);
    } else {
      assert (s + [key])[1..] == s[1..] + [key];
      RemoveKeyAppended(s[1..], key);
      assert s == [s[0]] + s[1..];
    }
  }

  /** Two ctrl-clicks on an unchecked item restore the hidden list as a set
      (the key moves to the end, and duplicates of it collapse). */
  lemma CtrlClickTwiceFromUnchecked(data: seq<MetricResult>, hidden: seq<string>,
                                    nameOf: MetricResult -> string, colorOf: string -> string, i: nat)
    requires i < |data| && !Labels(data, hidden, nameOf, colorOf)[i].checked
    ensures var once := NextHidden(hidden, Labels(data, hidden, nameOf, colorOf), true, i);
      var twice := NextHidden(once, Labels(data, once, nameOf, colorOf), true, i);
      forall k :: k in twice <==> k in hidden
  {
  }

  /** A plain click on a checked item while something is hidden shows every series. */
  lemma PlainClickShowsAll(data: seq<MetricResult>, hidden: seq<string>, nameOf: MetricResult -> string,
                           colorOf: string -> string, i: nat)
    requires i < |data| && hidden != [] && Labels(data, hidden, nameOf, colorOf)[i].checked
    ensures var after := NextHidden(hidden, Labels(data, hidden, nameOf, colorOf), false, i);
      after == [] && forall j :: 0 <= j < |data| ==> Labels(data, after, nameOf, colorOf)[j].checked
  {
  }

  /** The keys the isolate branch hides do not depend on what was hidden before. */
  lemma KeysExceptIgnoresHidden(data: seq<MetricResult>, h1: seq<string>, h2: seq<string>,
                                nameOf: MetricResult -> string, colorOf: string -> string, i: nat)
    requires i < |data|
    ensures KeysExcept(Labels(data, h1, nameOf, colorOf), i) == KeysExcept(Labels(data, h2, nameOf, colorOf), i)
  {
  }

  /** With distinct keys, the isolate list holds every key but the clicked one. */
  lemma {:induction false} IsolateKeys(data: seq<MetricResult>, hidden: seq<string>, nameOf: MetricResult -> string,
                                       colorOf: string -> string, i: nat)
    requires i < |data| && DistinctKeys(data, nameOf)
    ensures var keys := KeysExcept(Labels(data, hidden, nameOf, colorOf), i);
      forall j :: 0 <= j < |data| ==> (nameOf(data[j]) in keys <==> j != i)
  {
    var labels := Labels(data, hidden, nameOf, colorOf);
    var keys := KeysExcept(labels, i);
    forall j | 0 <= j < |data| ensures nameOf(data[j]) in keys <==> j != i {
      if j < i {
        assert keys[j] == nameOf(data[j]);
      } else if j > i {
        assert keys[j - 1] == nameOf(data[j]);
      }
    }
  }

  /**
    Any other plain click (nothing hidden, or an unchecked item) isolates the
    item: every other key is hidden, in legend order, and with distinct keys
    exactly the clicked item stays checked.
   */
  lemma PlainClickIsolates(data: seq<MetricResult>, hidden: seq<string>, nameOf: MetricResult -> string,
                           colorOf: string -> string, i: nat)
    requires i < |data| && (hidden == [] || !Labels(data, hidden, nameOf, colorOf)[i].checked)
    ensures var after := NextHidden(hidden, Labels(data, hidden, nameOf, colorOf), false, i);
      && |after| == |data| - 1
      && (forall j :: 0 <= j < i ==> after[j] == nameOf(data[j]))
      && (forall j :: i < j < |data| ==> after[j - 1] == nameOf(data[j]))
      && (DistinctKeys(data, nameOf) ==>
            forall j :: 0 <= j < |data| ==> (Labels(data, after, nameOf, colorOf)[j].checked <==> j == i))
  {
    if DistinctKeys(data, nameOf) {
      IsolateKeys(data, hidden, nameOf, colorOf, i);
    }
  }

  /**
    Undoing an isolation: when exactly the keys of the other series are
    hidden, a plain click on the remaining one shows everything.
   */
  lemma UndoIsolate(data: seq<MetricResult>, hidden: seq<string>, nameOf: MetricResult -> string,
                    colorOf: string -> string, i: nat)
    requires i < |data| && DistinctKeys(data, nameOf)
    requires forall k :: k in hidden <==> exists j :: 0 <= j < |data| && j != i && nameOf(data[j]) == k
    ensures NextHidden(hidden, Labels(data, hidden, nameOf, colorOf), false, i) == []
  {
    if |data| == 1 {
      assert forall k :: k !in hidden;
    } else {
      var j := if i == 0 then 1 else 0;
      assert nameOf(data[j]) in hidden;
      assert nameOf(data[i]) !in hidden;
    }
  }

  /** The zoom guard on two gestures: half a second is discarded, two
      seconds are proposed as they are. */
  lemma ZoomExamples()
    ensures OnZoomComplete(Some(Extent(1000.0, 1500.0))) == None
    ensures OnZoomComplete(Some(Extent(1000.0, 3000.0))) == Some(Period(1000.0, 3000.0))
  {
  }

  /** The period a pan proposes depends on the duration and the new end only,
      not on the width of the dragged range. */
  lemma PanIgnoresWidth(e1: Extent, e2: Extent, duration: string,
                        timeperiodForDuration: (string, real) -> (real, real), dateFromSeconds: real -> real)
    requires e1.max == e2.max && e1.min != 0.0 && e2.min != 0.0
    ensures OnPanComplete(Some(e1), duration, timeperiodForDuration, dateFromSeconds)
         == OnPanComplete(Some(e2), duration, timeperiodForDuration, dateFromSeconds)
  {
  }
}
