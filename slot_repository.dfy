/** The in-memory slot store `InMemorySlotRepository`: a list of slots kept in
    the order they were given, searched by exact code. */
module Repository {
  import opened Failures
  import opened Slots

  /** Where the first slot whose code is exactly `code` sits in `slots`, or None
      when no slot has that code. */
  function FirstIndex(slots: seq<Slot>, code: string): (r: Option<nat>)
    ensures r.Some? ==> r.value < |slots| && slots[r.value].code == code
    ensures r.Some? ==> forall j :: 0 <= j < r.value ==> slots[j].code != code
    ensures r.None? <==> forall j :: 0 <= j < |slots| ==> slots[j].code != code
  {
    if slots == [] then None
    else if slots[0].code == code then Some(0)
    else match FirstIndex(slots[1..], code)
      case None => None
      case Some(k) => Some(k + 1)
  }

  /** The slot `FirstIndex` points at. */
  function SlotWithCode(slots: seq<Slot>, code: string): (r: Option<Slot>)
    ensures r.Some? ==> r.value in slots && r.value.code == code
    ensures r.None? <==> forall s :: s in slots ==> s.code != code
  {
    match FirstIndex(slots, code)
    case None => None
    case Some(k) => Some(slots[k])
  }

  class InMemorySlotRepository {
    /** The C# `slots` list; the repository never adds or removes slots. */
    const slots: seq<Slot>

    /** Keeps the list it is given. */
    constructor (initialSlots: seq<Slot>)
      ensures slots == initialSlots
    {
      slots := initialSlots;
    }

    /** `GetAll`: the stored list itself, every slot in its original order. */
    function GetAll(): (r: seq<Slot>)
      ensures r == slots
    {
      slots
    }

    /** `GetByCode`: scans the list from the front and returns the first slot
        whose code equals `code` (ordinal, case-sensitive), or None. */
    method GetByCode(code: string) returns (r: Option<Slot>)
      ensures r == SlotWithCode(slots, code)
      ensures r.Some? ==> r.value in slots && r.value.code == code
    {
      for i := 0 to |slots|
        invariant forall j :: 0 <= j < i ==> slots[j].code != code
      {
        if slots[i].code == code {
          return Some(slots[i]);
        }
      }
      return None;
    }

    /** `Update`: slots are objects that were changed in place already, so the
        in-memory store has nothing to do. */
    method Update(slot: Slot)
      ensures unchanged(this, slot)
    {
    }
  }
}
