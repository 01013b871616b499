/** Workspace numbers: nine virtual workspaces on every monitor slot
    (packages/hypr-workspaced/src/workspace.rs). */
module WorkspaceIds {
  import opened Text

  type Virtual = n: int | 1 <= n <= 9 witness 1
  type Slot = n: int | 0 <= n < 256

  function HyprlandId(v: Virtual, slot: Slot): int {
    slot * 10 + v
  }

  function VirtualOf(id: int): Option<Virtual> {
    if id <= 0 || id % 10 == 0 then None else Some((id - 1) % 10 + 1)
  }

  /** The quotient is cast to a byte. */
  function SlotOf(id: int): Slot {
    if id < 10 then 0 else id / 10 % 256
  }

  /** A workspace id determines its virtual workspace and slot, and so the ranges of
      two slots share an id exactly if they are the same slot. */
  lemma IdRoundTrip(v: Virtual, slot: Slot)
    ensures VirtualOf(HyprlandId(v, slot)) == Some(v) && SlotOf(HyprlandId(v, slot)) == slot
  {
    var id := slot * 10 + v;
    assert id / 10 == slot && id % 10 == v;
    assert (id - 1) / 10 == slot && (id - 1) % 10 == v - 1;
  }

  predicate InRange(id: int, slot: Slot) {
    exists v: Virtual :: id == HyprlandId(v, slot)
  }

  lemma RangesMeetExactly(a: Slot, b: Slot)
    ensures (exists id :: InRange(id, a) && InRange(id, b)) <==> a == b
  {
    if a == b {
      assert InRange(HyprlandId(1, a), a);
    } else if id :| InRange(id, a) && InRange(id, b) {
      var v: Virtual :| id == HyprlandId(v, a);
      IdRoundTrip(v, a);
      var u: Virtual :| id == HyprlandId(u, b);
      IdRoundTrip(u, b);
    }
  }

  lemma IdInjective(v: Virtual, a: Slot, u: Virtual, b: Slot)
    ensures HyprlandId(v, a) == HyprlandId(u, b) <==> v == u && a == b
  {
    IdRoundTrip(v, a);
    IdRoundTrip(u, b);
  }

  predicate IsValidWorkspace(id: int, monitors: nat) {
    VirtualOf(id).Some? && SlotOf(id) < monitors
  }
}
