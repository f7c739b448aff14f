/** The A/B slots of the file-backed slot manager. A call may fail at any of its file operations; what it
    has changed by then stays changed. */
module SlotManager {
  import opened Bytes

  datatype Slot = A | B

  function Other(s: Slot): Slot {
    if s == A then B else A
  }

  /** The image and version files of one slot; None is a file that does not exist. */
  datatype Content = Content(image: Option<seq<Byte>>, version: Option<Text>)

  datatype Slots = Slots(current: Slot, lastGood: Slot, a: Content, b: Content)
  {
    function Of(s: Slot): Content {
      if s == A then a else b
    }

    function With(s: Slot, c: Content): Slots {
      if s == A then this.(a := c) else this.(b := c)
    }

    function Inactive(): Slot {
      Other(current)
    }
  }

  /** How writing an image goes on after its file has been opened and emptied. */
  datatype WriteOutcome =
    | Written  // everything reached the file
    | Partial(bytes: nat)  // the image broke off
    | VersionLost(left: Option<Text>)  // the image is there, the version file is not what it should be

  /** Opening the image file for writing empties it. */
  function BeginWrite(s: Slots, target: Slot): Slots {
    s.With(target, s.Of(target).(image := Some([])))
  }

  /** Copying no bytes at all counts as a failed write. */
  predicate WriteSucceeds(image: seq<Byte>, outcome: WriteOutcome) {
    outcome.Written? && image != []
  }

  function EndWrite(s: Slots, target: Slot, image: seq<Byte>, version: Text, outcome: WriteOutcome): Slots {
    match outcome
    case Written =>
      if image == [] then s else s.With(target, Content(Some(image), Some(version)))
    case Partial(n) => s.With(target, s.Of(target).(image := Some(if n < |image| then image[..n] else image)))
    case VersionLost(left) =>
      if image == [] then s else s.With(target, Content(Some(image), left))
  }

  predicate InactiveValid(s: Slots) {
    s.Of(s.Inactive()).image.Some? && s.Of(s.Inactive()).version.Some?
  }

  /** saved: the two slot files could be written; the slots have changed by then. */
  function ActivateInactive(s: Slots, saved: bool): (Slots, bool) {
    if !InactiveValid(s) then (s, false)
    else (s.(lastGood := s.current, current := s.Inactive()), saved)
  }

  function RollbackToLastGood(s: Slots, saved: bool): (Slots, bool) {
    (s.(current := s.lastGood), saved)
  }

  /** However the writing of an image ends, the target holds what was copied of it and nothing of what it held
      before; its version is the new one only if all went well; the other slot and the choice of slots stay. */
  lemma WriteLeaves(s: Slots, target: Slot, image: seq<Byte>, version: Text, outcome: WriteOutcome)
    ensures var t := EndWrite(BeginWrite(s, target), target, image, version, outcome);
      && t == s.With(target, t.Of(target))
      && t.Of(target).image.Some? && t.Of(target).image.value <= image
      && (outcome == Written && image != [] ==> t.Of(target) == Content(Some(image), Some(version)))
      && (image == [] ==> t.Of(target).version == s.Of(target).version)
      && (outcome.Partial? ==>
            && |t.Of(target).image.value| == Min(outcome.bytes, |image|)
            && t.Of(target).version == s.Of(target).version)
      && (outcome.VersionLost? && image != [] ==> t.Of(target) == Content(Some(image), outcome.left))
  {
  }

  /** An activation that went through is undone by a rollback, contents and all. */
  lemma RollbackUndoesActivate(s: Slots, saved: bool)
    requires ActivateInactive(s, true).1
    ensures RollbackToLastGood(ActivateInactive(s, true).0, saved).0 == s.(lastGood := s.current)
  {
  }

  class MockSlotManager {
    var current: Slot
    var lastGood: Slot
    var slotA: Content
    var slotB: Content

    function View(): Slots
      reads this
    {
      Slots(current, lastGood, slotA, slotB)
    }

    constructor (current: Slot, a: Content, b: Content)
      ensures View() == Slots(current, current, a, b)
    {
      this.current, lastGood, slotA, slotB := current, current, a, b;
    }

    function InactiveSlot(): Slot
      reads this
    {
      if current == A then B else A
    }

    method SetContent(slot: Slot, c: Content)
      modifies this`slotA, this`slotB
      ensures View() == old(View()).With(slot, c)
    {
      if slot == A { slotA := c; } else { slotB := c; }
    }

    /** The first half of writing an image: the target is fixed and its file opened. */
    method OpenInactive() returns (target: Slot)
      modifies this`slotA, this`slotB
      ensures target == Other(current) && View() == BeginWrite(old(View()), target)
    {
      target := InactiveSlot();
      SetContent(target, View().Of(target).(image := Some([])));
    }

    /** The second half: the bytes are copied and the version written. */
    method FillSlot(target: Slot, image: seq<Byte>, version: Text, outcome: WriteOutcome) returns (ok: bool)
      modifies this`slotA, this`slotB
      ensures View() == EndWrite(old(View()), target, image, version, outcome)
      ensures ok == WriteSucceeds(image, outcome)
    {
      match outcome {
        case Partial(n) =>
          SetContent(target, View().Of(target).(image := Some(if n < |image| then image[..n] else image)));
          return false;
        case _ =>
      }
      if image == [] {
        return false;
      }
      var c := View().Of(target).(image := Some(image));
      if outcome.VersionLost? {
        SetContent(target, c.(version := outcome.left));
        return false;
      }
      SetContent(target, c.(version := Some(version)));
      return true;
    }

    predicate IsInactiveValid()
      reads this
    {
      var c := View().Of(InactiveSlot());
      c.image.Some? && c.version.Some?
    }

    method Activate(saved: bool) returns (ok: bool)
      modifies this`current, this`lastGood
      ensures (View(), ok) == ActivateInactive(old(View()), saved)
    {
      if !IsInactiveValid() {
        return false;
      }
      lastGood := current;
      current := InactiveSlot();
      return saved;
    }

    method Rollback(saved: bool) returns (ok: bool)
      modifies this`current
      ensures (View(), ok) == RollbackToLastGood(old(View()), saved)
    {
      current := lastGood;
      return saved;
    }
  }
}
