/** The letter-to-motor registry of the simulation: one motor per letter,
    looked up when blocks name a motor port. */
module MotorRegistry {
  import opened Wrappers
  import opened Dicts

  /** A simulated motor component, by identity. */
  type MotorId = nat

  type Registry = Dict<char, MotorId>

  /** The key `ClearMotor` starts from and reads as "not found". */
  const NotFound: char := '\0'

  /** `RegisterMotor`: the letter now names `m`, replacing any earlier motor. */
  function RegisterMotor(reg: Registry, letter: char, m: MotorId): (r: Registry)
    requires Valid(reg)
    ensures Valid(r)
  {
    SetGet(reg, letter, m, letter);
    Set(reg, letter, m)
  }

  /** `GetMotor`: the registered motor, or none (null) for an unknown letter. */
  function GetMotor(reg: Registry, letter: char): (r: Option<MotorId>)
    ensures r.None? <==> !HasKey(reg, letter)
    ensures r.Some? ==> Holds(reg, letter, r.value)
  {
    Get(reg, letter)
  }

  /** `ClearAllMotors`. */
  function ClearAllMotors(): (r: Registry)
    ensures Valid(r) && forall letter :: GetMotor(r, letter).None?
  {
    Empty()
  }

  /** `ClearMotor`: a null motor is ignored; otherwise the first letter found
      for it is removed, unless that letter is the "not found" key itself. */
  function ClearMotor(reg: Registry, m: Option<MotorId>): (r: Registry)
    requires Valid(reg)
    ensures Valid(r)
    ensures m.None? ==> r == reg
  {
    match m
    case None => reg
    case Some(id) =>
      var key := FirstKeyOf(reg, id).GetOr(NotFound);
      if key != NotFound then
        RemoveGet(reg, key, key);
        Remove(reg, key)
      else reg
  }

  /** Registering overwrites: the letter finds the new motor and every other
      letter finds what it found before. */
  lemma RegisterOverwrites(reg: Registry, letter: char, m: MotorId, other: char)
    requires Valid(reg)
    ensures GetMotor(RegisterMotor(reg, letter, m), letter) == Some(m)
    ensures other != letter ==> GetMotor(RegisterMotor(reg, letter, m), other) == GetMotor(reg, other)
  {
    SetGet(reg, letter, m, letter);
    SetGet(reg, letter, m, other);
  }

  /** `ClearMotor` forgets exactly the first letter registered for the motor:
      every other letter, including later ones for the same motor, stays. */
  lemma ClearMotorRemovesFirstOnly(reg: Registry, id: MotorId, other: char)
    requires Valid(reg)
    requires FirstKeyOf(reg, id).Some? && FirstKeyOf(reg, id).value != NotFound
    ensures GetMotor(ClearMotor(reg, Some(id)), FirstKeyOf(reg, id).value).None?
    ensures other != FirstKeyOf(reg, id).value ==>
      GetMotor(ClearMotor(reg, Some(id)), other) == GetMotor(reg, other)
  {
    var k := FirstKeyOf(reg, id).value;
    RemoveGet(reg, k, k);
    RemoveGet(reg, k, other);
  }

  /** An entry under the "not found" key is never removed, and a motor whose
      first letter is that key is never removed at all. */
  lemma SentinelNeverCleared(reg: Registry, m: Option<MotorId>)
    requires Valid(reg)
    ensures GetMotor(ClearMotor(reg, m), NotFound) == GetMotor(reg, NotFound)
    ensures m.Some? && FirstKeyOf(reg, m.value) == Some(NotFound) ==> ClearMotor(reg, m) == reg
  {
    if m.Some? {
      var key := FirstKeyOf(reg, m.value).GetOr(NotFound);
      if key != NotFound {
        RemoveGet(reg, key, NotFound);
      }
    }
  }

  /** A registry with A on motor 1 and B on motor 2 in that order. */
  function TwoMotors(): (r: Registry)
    ensures Valid(r)
  {
    RegisterMotor(RegisterMotor(ClearAllMotors(), 'A', 1), 'B', 2)
  }

  lemma TwoMotorsSlots()
    ensures TwoMotors() == Dict([Used('A', 1), Used('B', 2)], [])
  {
    var e: Registry := ClearAllMotors();
    SetNewShape(e, 'A', 1);
    var ra := Dict([Used('A', 1)], []);
    assert !KeyAt(ra.slots, 0, 'B');
    SetNewShape(ra, 'B', 2);
  }

  /** Removing the key in slot 0 of a two-slot registry. */
  lemma RemoveSlotZero(x: Slot<char, MotorId>, y: Slot<char, MotorId>)
    requires x.Used? && Valid(Dict([x, y], []))
    ensures Remove(Dict([x, y], []), x.key) == Dict([Freed, y], [0])
  {
    RemoveShape(Dict([x, y], []), x.key, 0);
    assert [x, y][0 := Freed] == [Freed, y];
  }

  /** A new key fills the freed slot 0. */
  lemma FillSlotZero(y: Slot<char, MotorId>, k: char, m: MotorId)
    requires Valid(Dict([Freed, y], [0])) && !(y.Used? && y.key == k)
    ensures Set(Dict([Freed, y], [0]), k, m) == Dict([Used(k, m), y], [])
  {
    var d := Dict([Freed, y], [0]);
    assert !KeyAt(d.slots, 0, k) && !KeyAt(d.slots, 1, k);
    SetNewShape(d, k, m);
    assert [Freed, y][0 := Used(k, m)] == [Used(k, m), y];
  }

  /** Clearing motor 1 frees A's slot, and C, registered next, takes it. */
  lemma ReuseFillsFirstSlot()
    ensures RegisterMotor(ClearMotor(TwoMotors(), Some(1)), 'C', 2) == Dict([Used('C', 2), Used('B', 2)], [])
  {
    TwoMotorsSlots();
    var r0 := TwoMotors();
    assert FirstKeyOf(r0, 1) == Some('A');
    RemoveSlotZero(Used('A', 1), Used('B', 2));
    FillSlotZero(Used('B', 2), 'C', 2);
  }

  /** With C before B, both on motor 2, clearing motor 2 removes C. */
  lemma ClearFindsReusedSlot()
    ensures var r1: Registry := Dict([Used('C', 2), Used('B', 2)], []);
      && Valid(r1) && FirstKeyOf(r1, 2) == Some('C')
      && GetMotor(ClearMotor(r1, Some(2)), 'C').None?
      && GetMotor(ClearMotor(r1, Some(2)), 'B') == Some(2)
  {
    var r1: Registry := Dict([Used('C', 2), Used('B', 2)], []);
    assert FirstKeyOf(r1, 2) == Some('C');
    RemoveSlotZero(Used('C', 2), Used('B', 2));
    var r2 := ClearMotor(r1, Some(2));
    assert r2 == Dict([Freed, Used('B', 2)], [0]);
    GetOfEntry(r2, 'B', 2);
  }

  /** Slot reuse decides which letter `ClearMotor` finds. With A on motor 1
      and B on motor 2, clearing motor 1 frees A's slot; C, registered next
      for motor 2, takes that slot and is enumerated before B, so clearing
      motor 2 removes C and B keeps its motor. */
  lemma ClearMotorAfterReuse()
    ensures var r1 := RegisterMotor(ClearMotor(TwoMotors(), Some(1)), 'C', 2);
      var r2 := ClearMotor(r1, Some(2));
      && FirstKeyOf(r1, 2) == Some('C')
      && GetMotor(r2, 'C').None? && GetMotor(r2, 'B') == Some(2)
  {
    ReuseFillsFirstSlot();
    ClearFindsReusedSlot();
  }
}
