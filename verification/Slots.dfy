/** Conservation of results: counting the filled argument slots of a reachable state. */
module Slots {
  import opened Wrappers
  import opened Numbers
  import opened Models
  import opened Repository
  import opened Machine
  import opened Invariant
  import opened Verdict

  /** One of the two argument columns of a task. */
  datatype Slot = Slot(id: string, second: bool)

  function Parent(st: Store, s: Slot): Option<string>
    requires s.id in st.tasks
  {
    if s.second then st.tasks[s.id].parentTask2ID else st.tasks[s.id].parentTask1ID
  }

  function Arg(st: Store, s: Slot): Option<Num>
    requires s.id in st.tasks
  {
    if s.second then st.tasks[s.id].arg2 else st.tasks[s.id].arg1
  }

  function FilledSlots(st: Store): set<Slot> {
    set id, second | id in st.tasks && second in {false, true} && Arg(st, Slot(id, second)).Some? :: Slot(id, second)
  }

  function ConstantSlots(st: Store): set<Slot> {
    set id, second | id in st.tasks && second in {false, true} && Parent(st, Slot(id, second)).None? :: Slot(id, second)
  }

  function CopiedSlots(st: Store): set<Slot> {
    set s | s in FilledSlots(st) && s.id in st.tasks && Parent(st, s).Some?
  }

  /** The tasks whose result has gone to a consumer. */
  function HandedOver(st: Store): set<string> {
    set id | id in st.tasks && !IsFinal(st, id) && st.tasks[id].result.Some?
  }

  lemma SlotFacts(f: Forest, st: Store, s: Slot)
    requires Shape(f, st) && Data(f, st) && s.id in st.tasks
    ensures Parent(st, s).None? ==> Arg(st, s).Some?
    ensures Parent(st, s).Some? ==>
              && Parent(st, s).value in st.tasks
              && Refers(st, s.id, Parent(st, s).value)
              && Arg(st, s) == st.tasks[Parent(st, s).value].result
  {
    assert TaskData(f, st, s.id);
  }

  /** Two slots never copy the same result. */
  lemma OneSlotEach(f: Forest, st: Store, s: Slot, t: Slot)
    requires Shape(f, st) && Data(f, st) && s.id in st.tasks && t.id in st.tasks
    requires Parent(st, s).Some? && Parent(st, s) == Parent(st, t)
    ensures s == t
  {
    SlotFacts(f, st, s);
    SlotFacts(f, st, t);
    assert TaskShape(f, st, s.id);
  }

  lemma HandedOverHasSlot(f: Forest, st: Store, p: string) returns (s: Slot)
    requires Shape(f, st) && Data(f, st) && p in HandedOver(st)
    ensures s in CopiedSlots(st) && Parent(st, s) == Some(p)
  {
    var c :| c in st.tasks && Refers(st, c, p);
    s := Slot(c, st.tasks[c].parentTask1ID != Some(p));
    SlotFacts(f, st, s);
    assert s == Slot(s.id, s.second) && s.second in {false, true};
  }

  /** A one-to-one correspondence makes two finite sets equally large. */
  lemma {:induction false} SameSize(slots: set<Slot>, ids: set<string>, to: map<Slot, string>)
    requires slots <= to.Keys
    requires forall s :: s in slots ==> to[s] in ids
    requires forall s, t :: s in slots && t in slots && to[s] == to[t] ==> s == t
    requires forall x :: x in ids ==> exists s :: s in slots && to[s] == x
    ensures |slots| == |ids|
    decreases |slots|
  {
    if slots == {} {
      assert ids == {};
    } else {
      var s :| s in slots;
      forall x | x in ids - {to[s]}
        ensures exists t :: t in slots - {s} && to[t] == x
      {
        var t :| t in slots && to[t] == x;
        assert t in slots - {s};
      }
      SameSize(slots - {s}, ids - {to[s]}, to);
    }
  }

  lemma CopiedMatchHanded(f: Forest, st: Store)
    requires Shape(f, st) && Data(f, st)
    ensures |CopiedSlots(st)| == |HandedOver(st)|
  {
    var slots := CopiedSlots(st);
    var to := map s | s in slots :: Parent(st, s).value;
    forall s | s in slots
      ensures to[s] in HandedOver(st)
    {
      SlotFacts(f, st, s);
    }
    forall s, t | s in slots && t in slots && to[s] == to[t]
      ensures s == t
    {
      OneSlotEach(f, st, s, t);
    }
    forall x | x in HandedOver(st)
      ensures exists s :: s in slots && to[s] == x
    {
      var s := HandedOverHasSlot(f, st, x);
    }
    SameSize(slots, HandedOver(st), to);
  }

  lemma Partition(f: Forest, st: Store)
    requires Shape(f, st) && Data(f, st)
    ensures FilledSlots(st) == ConstantSlots(st) + CopiedSlots(st)
    ensures ConstantSlots(st) !! CopiedSlots(st)
  {
    forall s | s in ConstantSlots(st)
      ensures s in FilledSlots(st)
    {
      SlotFacts(f, st, s);
    }
  }

  /**
   In every reachable state, duplicates included, the filled slots number the constants plus the
   tasks that are not last and have a result: no result is lost and none is delivered twice.
   */
  lemma FilledSlotsCount(r: Run)
    requires Valid(r)
    ensures var st := Last(r).store;
            |FilledSlots(st)| == |ConstantSlots(st)| + |HandedOver(st)|
  {
    var f := RunExplained(r);
    Partition(f, Last(r).store);
    CopiedMatchHanded(f, Last(r).store);
  }
}
