/**
 The two fixed-size tables, read as partial maps from slots to ids.
 */
module AddrTables {
  import opened AddrTypes

  /** The occupied slots of a table. */
  ghost function Occupied(t: array2<Nid>): map<Slot, Nid>
    reads t
  {
    map b, p | 0 <= b < t.Length0 && 0 <= p < t.Length1 && t[b, p] != NOBODY :: Slot(b, p) := t[b, p]
  }

  method Put(t: array2<Nid>, s: Slot, id: Nid)
    requires 0 <= s.bucket < t.Length0 && 0 <= s.pos < t.Length1 && id != NOBODY
    modifies t
    ensures Occupied(t) == old(Occupied(t))[s := id]
  {
    t[s.bucket, s.pos] := id;
  }

  method Vacate(t: array2<Nid>, s: Slot)
    requires 0 <= s.bucket < t.Length0 && 0 <= s.pos < t.Length1
    modifies t
    ensures Occupied(t) == old(Occupied(t)) - {s}
  {
    t[s.bucket, s.pos] := NOBODY;
  }

  lemma Empties(t: array2<Nid>, s: Slot)
    requires 0 <= s.bucket < t.Length0 && 0 <= s.pos < t.Length1
    ensures s !in Occupied(t) <==> t[s.bucket, s.pos] == NOBODY
    ensures s in Occupied(t) ==> Occupied(t)[s] == t[s.bucket, s.pos]
  {
  }
}
