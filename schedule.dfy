/**
 * The schedule tabs of app.js: one tab button per schedule key, in key order, the first one
 * marked active; selecting a key clears every `active` mark, marks the first button whose
 * data-key is that key, and replaces the content pane with that key's classes in order.
 */
module Schedule {
  import opened Wrappers

  /** One entry of a day's schedule. */
  datatype Slot = Slot(time: string, className: string)

  /** The index of the first button whose data-key is `k` (what `querySelector` finds). */
  function FirstIndex(keys: seq<string>, k: string): (r: Option<nat>)
    ensures r.Some? ==> r.value < |keys| && keys[r.value] == k
    ensures r.Some? ==> forall j :: 0 <= j < r.value ==> keys[j] != k
    ensures r.None? <==> k !in keys
  {
    if |keys| == 0 then None
    else if keys[0] == k then Some(0)
    else match FirstIndex(keys[1..], k)
      case None => None
      case Some(i) => Some(i + 1)
  }

  /** The `active` marks after selecting `k`: only the button `querySelector` found. */
  function ActiveMarks(keys: seq<string>, k: string): (marks: seq<bool>)
    ensures |marks| == |keys|
    ensures forall j :: 0 <= j < |marks| && marks[j] ==>
              keys[j] == k && forall i :: 0 <= i < j ==> keys[i] != k
  {
    var found := FirstIndex(keys, k);
    seq(|keys|, j requires 0 <= j < |keys| => found == Some(j))
  }

  /** `schedules[key] || []`. */
  function PaneItems(schedules: map<string, seq<Slot>>, k: string): (items: seq<Slot>)
    ensures k in schedules ==> items == schedules[k]
    ensures k !in schedules ==> items == []
  {
    if k in schedules then schedules[k] else []
  }

  function CountActive(marks: seq<bool>): nat {
    if |marks| == 0 then 0 else (if marks[0] then 1 else 0) + CountActive(marks[1..])
  }

  predicate Distinct(keys: seq<string>) {
    forall i, j :: 0 <= i < j < |keys| ==> keys[i] != keys[j]
  }

  /** A sequence of marks with exactly one set, at `at`, counts one. */
  lemma {:induction false} CountSingle(marks: seq<bool>, at: nat)
    requires at < |marks| && forall j :: 0 <= j < |marks| ==> (marks[j] <==> j == at)
    ensures CountActive(marks) == 1
  {
    if at == 0 {
      CountNone(marks[1..]);
    } else {
      CountSingle(marks[1..], at - 1);
    }
  }

  lemma {:induction false} CountNone(marks: seq<bool>)
    requires forall j :: 0 <= j < |marks| ==> !marks[j]
    ensures CountActive(marks) == 0
  {
    if |marks| > 0 {
      CountNone(marks[1..]);
    }
  }

  /**
   * After selecting a key that has a tab, exactly one button is active; with distinct keys
   * it is the button of that key. A key without a tab leaves none active.
   */
  lemma ExactlyOneActive(keys: seq<string>, k: string)
    ensures k in keys ==> CountActive(ActiveMarks(keys, k)) == 1
    ensures k !in keys ==> CountActive(ActiveMarks(keys, k)) == 0
    ensures Distinct(keys) ==>
              forall j :: 0 <= j < |keys| ==> (ActiveMarks(keys, k)[j] <==> keys[j] == k)
  {
    var marks := ActiveMarks(keys, k);
    match FirstIndex(keys, k) {
      case None =>
        CountNone(marks);
      case Some(i) =>
        CountSingle(marks, i);
    }
  }

  class ScheduleTabs {
    const schedules: map<string, seq<Slot>>
    var buttons: seq<string>    // the data-key of each tab button, in document order
    var active: seq<bool>       // whether each button carries the `active` class
    var pane: seq<Slot>         // the entries shown in the content pane

    ghost predicate Valid()
      reads this
    {
      |active| == |buttons|
    }

    /**
     * The tab set-up: one button per key of `Object.keys(schedules)` (given as `keys`), the
     * first one active; then the first key is selected unless it is empty (`if(keys[0])`).
     */
    constructor Mount(schedules: map<string, seq<Slot>>, keys: seq<string>)
      ensures Valid() && this.schedules == schedules && buttons == keys
      ensures |keys| > 0 && keys[0] != "" ==>
                active == ActiveMarks(keys, keys[0]) && pane == PaneItems(schedules, keys[0])
      ensures |keys| == 0 || keys[0] == "" ==>
                (forall j :: 0 <= j < |keys| ==> (active[j] <==> j == 0)) && pane == []
    {
      this.schedules := schedules;
      buttons := [];
      active := [];
      pane := [];
      new;
      var i := 0;
      while i < |keys|
        invariant 0 <= i <= |keys|
        invariant buttons == keys[..i] && |active| == i
        invariant forall j :: 0 <= j < i ==> (active[j] <==> j == 0)
        invariant pane == []
      {
        buttons := buttons + [keys[i]];
        active := active + [i == 0];
        i := i + 1;
      }
      assert buttons == keys;
      if |keys| > 0 && keys[0] != "" {
        RenderSchedule(keys[0]);
      }
    }

    /** `renderSchedule(key)`. */
    method RenderSchedule(key: string)
      requires Valid()
      modifies this`active, this`pane
      ensures Valid()
      ensures active == ActiveMarks(buttons, key) && pane == PaneItems(schedules, key)
    {
      var j := 0;
      while j < |active|
        invariant 0 <= j <= |active| == |buttons|
        invariant forall t :: 0 <= t < j ==> !active[t]
      {
        active := active[j := false];
        j := j + 1;
      }
      var found := FirstIndex(buttons, key);
      if found.Some? {
        active := active[found.value := true];
      }
      pane := PaneItems(schedules, key);
    }
  }
}
