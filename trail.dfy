/**
 * `build_trail`: the activity entries one audited row contributes to the
 * trail table, found by comparing the condensed old and new value lists
 * position by position.
 */
module Trail {
  import opened PyText
  import Meta

  /** Positions never compared (`index_skip_list`): the actual delivery and ship dates, order confirm date and create user. */
  const IndexSkipList: seq<nat> := [1, 2, 15, 16]

  /** The condensed position of STATUS. */
  const StatusPos: nat := 30

  /** One activity `build_trail` logs, with the position it was found at. */
  datatype Change = Change(index: nat, activity: string)

  /**
   * The outcome of comparing one row: the activities logged, in order, and
   * whether the loop ran to its end (or to its `break`) rather than being
   * cut short by an exception. Activities logged before an exception stay
   * in the trail table.
   */
  datatype TrailRun = TrailRun(changes: seq<Change>, completed: bool)

  /** The status activity: "Order status -" and the text after the first ':', leading space included. */
  function StatusActivity(newVal: string): string
  {
    "Order status -" + Slice(newVal, Find(newVal, ':') + 1, |newVal|)
  }

  /**
   * The activity for any other changed position: the first character of the
   * new entry, the rest of its label in lower case, then " added to order"
   * when the old entry has nothing after its ':' and " updated/changed"
   * otherwise.
   */
  function FieldActivity(oldVal: string, newVal: string): string
    requires |newVal| > 0
  {
    [newVal[0]] + Lower(Slice(newVal, 1, Find(newVal, ':')))
    + (if Slice(oldVal, Find(oldVal, ':') + 1, |oldVal|) == "" then " added to order" else " updated/changed")
  }

  /** Whether the stripped entries at position `i` differ. */
  predicate Differs(o: seq<string>, n: seq<string>, i: nat)
    requires i < |o| && i < |n|
  {
    Strip(o[i]) != Strip(n[i])
  }

  /** What one turn of the loop of `build_trail` does at position `i`. */
  datatype Step = Pass | Raise | Stop(c: Change) | Log(c: Change)

  /**
   * One turn of the `for` loop at position `i`: `continue` for a skipped
   * position or unchanged entries, an exception for a missing new entry or
   * an empty stripped one (`new_val[0]`), log and `break` for a changed
   * order number, log and go on otherwise.
   */
  function StepAt(o: seq<string>, n: seq<string>, i: nat): Step
    requires i < |o|
  {
    if i in IndexSkipList then Pass
    else if i >= |n| then Raise
    else
      var oldVal, newVal := Strip(o[i]), Strip(n[i]);
      if oldVal == newVal then Pass
      else if i == Meta.OrderNumberPos then Stop(Change(i, "Order Created"))
      else if i == StatusPos then Log(Change(i, StatusActivity(newVal)))
      else if |newVal| == 0 then Raise
      else Log(Change(i, FieldActivity(oldVal, newVal)))
  }

  /** The turn the loop takes at each position of the old list. */
  function Steps(o: seq<string>, n: seq<string>): (steps: seq<Step>)
    ensures |steps| == |o|
  {
    seq(|o|, i requires 0 <= i < |o| => StepAt(o, n, i))
  }

  /** The `for` loop of `build_trail` from position `i` on, given the turn at each position. */
  function Run(steps: seq<Step>, i: nat): TrailRun
    decreases |steps| - i
  {
    if i >= |steps| then TrailRun([], true)
    else
      match steps[i]
      case Pass => Run(steps, i + 1)
      case Raise => TrailRun([], false)
      case Stop(c) => TrailRun([c], true)
      case Log(c) => Then([c], Run(steps, i + 1))
  }

  /** The turn at position `i` of the loop, as the loop body meets it. */
  lemma StepsAt(o: seq<string>, n: seq<string>, i: nat)
    requires i < |o|
    ensures Steps(o, n)[i] == StepAt(o, n, i)
  {
  }

  /** One turn of the loop, then the rest. */
  lemma RunUnfold(steps: seq<Step>, i: nat)
    requires i < |steps|
    ensures Run(steps, i)
         == match steps[i]
            case Pass => Run(steps, i + 1)
            case Raise => TrailRun([], false)
            case Stop(c) => TrailRun([c], true)
            case Log(c) => Then([c], Run(steps, i + 1))
  {
  }

  /** Logging `c` after `done` and then the rest. */
  lemma ThenThen(done: seq<Change>, c: Change, rest: TrailRun)
    ensures Then(done, Then([c], rest)) == Then(done + [c], rest)
  {
    assert done + ([c] + rest.changes) == (done + [c]) + rest.changes;
  }

  /** Activities logged before the rest of a run. */
  function Then(first: seq<Change>, rest: TrailRun): TrailRun
  {
    TrailRun(first + rest.changes, rest.completed)
  }

  /** What `build_trail` logs for a row with old list `o` and new list `n`. */
  function Trail(o: seq<string>, n: seq<string>): TrailRun
  {
    Run(Steps(o, n), 0)
  }

  /** The activity a changed position yields. */
  function ActivityAt(o: seq<string>, n: seq<string>, i: nat): string
    requires i < |o| && i < |n| && (i == Meta.OrderNumberPos || i == StatusPos || |Strip(n[i])| > 0)
  {
    if i == Meta.OrderNumberPos then "Order Created"
    else if i == StatusPos then StatusActivity(Strip(n[i]))
    else FieldActivity(Strip(o[i]), Strip(n[i]))
  }

  /** A logged change is justified: a compared position whose stripped entries differ, with its activity. */
  predicate Justified(o: seq<string>, n: seq<string>, c: Change)
  {
    && c.index < |o| && c.index < |n| && c.index !in IndexSkipList
    && Differs(o, n, c.index)
    && (c.index == Meta.OrderNumberPos || c.index == StatusPos || |Strip(n[c.index])| > 0)
    && c.activity == ActivityAt(o, n, c.index)
  }

  /** A turn logs only a justified change, at its own position. */
  lemma StepLogs(o: seq<string>, n: seq<string>, i: nat)
    requires i < |o|
    ensures StepAt(o, n, i).Stop? || StepAt(o, n, i).Log?
            ==> StepAt(o, n, i).c.index == i && Justified(o, n, StepAt(o, n, i).c)
  {
    SkipListMembers();
  }

  /** The skipped positions, one by one. */
  lemma SkipListMembers()
    ensures forall i :: i in IndexSkipList <==> i == 1 || i == 2 || i == 15 || i == 16
  {
  }

  /** A turn stops the loop exactly at a changed order number. */
  lemma StepStops(o: seq<string>, n: seq<string>, i: nat)
    requires i < |o|
    ensures StepAt(o, n, i).Stop? <==> i == Meta.OrderNumberPos && i < |n| && Differs(o, n, i)
  {
    SkipListMembers();
  }

  /** A turn passes exactly over a skipped position or unchanged entries. */
  lemma StepPasses(o: seq<string>, n: seq<string>, i: nat)
    requires i < |o|
    ensures StepAt(o, n, i).Pass? <==> i in IndexSkipList || (i < |n| && !Differs(o, n, i))
  {
    SkipListMembers();
  }

  /**
   * A turn raises exactly when a compared position has no new entry, or a
   * changed new entry other than the order number or the status that is
   * blank once stripped (`new_val[0]`).
   */
  lemma StepRaises(o: seq<string>, n: seq<string>, i: nat)
    requires i < |o|
    ensures StepAt(o, n, i).Raise?
        <==> i !in IndexSkipList && (i >= |n| || (Differs(o, n, i) && i != Meta.OrderNumberPos && i != StatusPos && Strip(n[i]) == []))
  {
    SkipListMembers();
  }

  /** Each turn that logs carries its own position. */
  ghost predicate Positioned(steps: seq<Step>)
  {
    forall j :: 0 <= j < |steps| && (steps[j].Log? || steps[j].Stop?) ==> steps[j].c.index == j
  }

  lemma StepsPositioned(o: seq<string>, n: seq<string>)
    ensures Positioned(Steps(o, n))
  {
    forall j | 0 <= j < |o| && (Steps(o, n)[j].Log? || Steps(o, n)[j].Stop?)
      ensures Steps(o, n)[j].c.index == j
    {
      StepLogs(o, n, j);
    }
  }

  /** The turn at the position of `c` logs `c`. */
  predicate Logged(steps: seq<Step>, c: Change)
  {
    c.index < |steps| && (steps[c.index] == Log(c) || steps[c.index] == Stop(c))
  }

  /**
   * Soundness of the loop: every logged change is the change logged by the
   * turn at its own position, at or after `i`, in strictly increasing order
   * of position.
   */
  lemma {:induction false} RunSound(steps: seq<Step>, i: nat)
    requires Positioned(steps)
    ensures forall k :: 0 <= k < |Run(steps, i).changes| ==> i <= Run(steps, i).changes[k].index < |steps|
    ensures forall k :: 0 <= k < |Run(steps, i).changes| ==> Logged(steps, Run(steps, i).changes[k])
    ensures forall k, l :: 0 <= k < l < |Run(steps, i).changes| ==>
              Run(steps, i).changes[k].index < Run(steps, i).changes[l].index
    decreases |steps| - i
  {
    if i < |steps| {
      RunSound(steps, i + 1);
      if steps[i].Log? || steps[i].Stop? {
        assert steps[i].c.index == i;
      }
      if steps[i].Log? {
        var c := steps[i].c;
        var rest := Run(steps, i + 1);
        var r := Run(steps, i);
        assert r.changes == [c] + rest.changes;
        forall k | 0 < k < |r.changes|
          ensures r.changes[k] == rest.changes[k - 1] && i < r.changes[k].index
        {
        }
      }
    }
  }

  /**
   * Completeness of the loop: a run that completes never reached a raising
   * turn, and a logging turn reached before any stop has its change logged.
   */
  lemma {:induction false} RunComplete(steps: seq<Step>, i: nat, j: nat)
    requires i <= j < |steps| && Run(steps, i).completed
    requires forall m :: i <= m < j ==> !steps[m].Stop?
    ensures !steps[j].Raise?
    ensures steps[j].Log? ==> steps[j].c in Run(steps, i).changes
    decreases j - i
  {
    if i < j {
      RunComplete(steps, i + 1, j);
    }
  }

  /**
   * Soundness of `build_trail`: every logged activity comes from a compared
   * position whose stripped entries differ, carries the activity that
   * position calls for, and activities appear in increasing order of
   * position, so no position is logged twice.
   */
  lemma TrailSound(o: seq<string>, n: seq<string>)
    ensures var r := Trail(o, n);
            && (forall k :: 0 <= k < |r.changes| ==> Justified(o, n, r.changes[k]))
            && (forall k, l :: 0 <= k < l < |r.changes| ==> r.changes[k].index < r.changes[l].index)
  {
    StepsPositioned(o, n);
    RunSound(Steps(o, n), 0);
    var r := Trail(o, n);
    forall k | 0 <= k < |r.changes|
      ensures Justified(o, n, r.changes[k])
    {
      StepLogs(o, n, r.changes[k].index);
    }
  }

  /**
   * Completeness of `build_trail`: when the order number is unchanged and
   * the run completes, every other compared position whose stripped
   * entries differ is logged, with the activity that position calls for.
   */
  lemma TrailComplete(o: seq<string>, n: seq<string>, j: nat)
    requires 0 < |n| && 0 < j < |o| && j < |n| && j !in IndexSkipList && Differs(o, n, j)
    requires !Differs(o, n, 0) && Trail(o, n).completed
    ensures |Strip(n[j])| > 0 || j == StatusPos
    ensures Change(j, ActivityAt(o, n, j)) in Trail(o, n).changes
  {
    var steps := Steps(o, n);
    forall m | 0 <= m < j
      ensures !steps[m].Stop?
    {
      StepStops(o, n, m);
    }
    RunComplete(steps, 0, j);
    StepRaises(o, n, j);
    StepPasses(o, n, j);
    StepLogs(o, n, j);
  }

  /**
   * A changed order number means the order was just created: the row
   * yields exactly one activity, "Order Created", and nothing else.
   */
  lemma OrderCreated(o: seq<string>, n: seq<string>)
    requires |o| > 0 && |n| > 0 && Differs(o, n, 0)
    ensures Trail(o, n) == TrailRun([Change(0, "Order Created")], true)
  {
    assert Steps(o, n)[0] == StepAt(o, n, 0);
  }

  /** A loop none of whose turns raises runs to its end. */
  lemma {:induction false} RunCompletes(steps: seq<Step>, i: nat)
    requires forall j :: i <= j < |steps| ==> !steps[j].Raise?
    ensures Run(steps, i).completed
    decreases |steps| - i
  {
    if i < |steps| {
      RunCompletes(steps, i + 1);
    }
  }

  /**
   * Rows the splitter produced never raise: when the new list is at least
   * as long as the old one and every new entry holds a ':', the loop runs
   * to its end.
   */
  lemma TrailCompletes(o: seq<string>, n: seq<string>)
    requires |o| <= |n|
    requires forall k :: 0 <= k < |n| ==> ':' in n[k]
    ensures Trail(o, n).completed
  {
    forall j | 0 <= j < |o|
      ensures !Steps(o, n)[j].Raise?
    {
      StepRaises(o, n, j);
      StripKeeps(n[j], Find(n[j], ':'));
    }
    RunCompletes(Steps(o, n), 0);
  }

  /** The status activity of an entry "STATUS: v" is "Order status - v", keeping the space after the ':'. */
  lemma StatusActivityOf(name: string, value: string)
    requires ':' !in name
    ensures StatusActivity(name + ": " + value) == "Order status - " + value
  {
    var s := name + ": " + value;
    assert Find(s, ':') == |name| by {
      assert s == name + (": " + value);
      FindConcat(name, ": " + value, ':');
    }
    assert s[|name| + 1..] == " " + value;
  }

  /**
   * The activity of a changed entry "LABEL:v": the label's first character
   * and the rest of it in lower case, then " added to order" exactly when
   * the old entry "LABEL:w" had an empty value w.
   */
  lemma FieldActivityOf(name: string, oldValue: string, newValue: string)
    requires |name| > 0 && ':' !in name
    ensures FieldActivity(name + ":" + oldValue, name + ":" + newValue)
         == [name[0]] + Lower(name[1..])
            + (if oldValue == "" then " added to order" else " updated/changed")
  {
    var o, n := name + ":" + oldValue, name + ":" + newValue;
    assert o == name + (":" + oldValue) && n == name + (":" + newValue);
    FindConcat(name, ":" + oldValue, ':');
    FindConcat(name, ":" + newValue, ':');
    assert n[1..|name|] == name[1..];
    assert o[|name| + 1..] == oldValue;
  }
}
