/**
 What usb_kbd_irq (keyboard/usbkbd.c) tells the input core. The driver compares the scan codes of two
 boot-protocol reports but reports key codes, and its table gives some scan codes the same key.
*/
module KeyReports {
  import opened BitMath
  import opened Common

  const REPORT_SIZE: nat := 8
  const FIRST_MODIFIER: nat := 224

  /** usb_kbd_keycode, zero for scan codes without a key */
  type KeyTable = t: seq<nat> | |t| == 256 witness seq(256, i => 0)

  /** Eight modifier bits, a reserved byte, and six scan codes */
  type Report = r: seq<byte> | |r| == REPORT_SIZE witness seq(REPORT_SIZE, i => 0)

  predicate Modifier(r: Report, i: nat) {
    BitOf(r[0], i)
  }

  predicate IsModifier(code: nat) {
    FIRST_MODIFIER <= code < FIRST_MODIFIER + 8
  }

  ghost predicate Holds(r: Report, code: byte) {
    exists i :: 2 <= i < REPORT_SIZE && r[i] == code
  }

  /** The codes up to 3 are error codes. */
  predicate IsKey(keys: KeyTable, code: byte) {
    code > 3 && keys[code] != 0
  }

  /** The report shows a modifier, or a scan code, with this key. */
  ghost predicate Shows(keys: KeyTable, r: Report, key: nat) {
    || (exists i :: 0 <= i < 8 && Modifier(r, i) && keys[FIRST_MODIFIER + i] == key)
    || (exists i :: 2 <= i < REPORT_SIZE && IsKey(keys, r[i]) && keys[r[i]] == key)
  }

  /** The keys a report shows as pressed */
  ghost function Pressed(keys: KeyTable, r: Report): (down: set<nat>)
    ensures forall key :: key in down <==> Shows(keys, r, key)
  {
    (set i | 0 <= i < 8 && Modifier(r, i) :: keys[FIRST_MODIFIER + i])
    + (set i | 2 <= i < REPORT_SIZE && IsKey(keys, r[i]) :: keys[r[i]])
  }

  lemma ModifierBits(r: Report)
    ensures Modifier(r, 0) <==> r[0] % 2 == 1
    ensures Modifier(r, 1) <==> r[0] / 2 % 2 == 1
    ensures Modifier(r, 2) <==> r[0] / 4 % 2 == 1
    ensures Modifier(r, 3) <==> r[0] / 8 % 2 == 1
    ensures Modifier(r, 4) <==> r[0] / 16 % 2 == 1
    ensures Modifier(r, 5) <==> r[0] / 32 % 2 == 1
    ensures Modifier(r, 6) <==> r[0] / 64 % 2 == 1
    ensures Modifier(r, 7) <==> r[0] / 128 == 1
  {
    var v := r[0];
    assert Upper(v, 1) == v / 2;
    assert Upper(v, 2) == v / 4;
    assert Upper(v, 3) == v / 8;
    assert Upper(v, 4) == v / 16;
    assert Upper(v, 5) == v / 32;
    assert Upper(v, 6) == v / 64;
    assert Upper(v, 7) == v / 128;
  }

  /** What a boot report says about a key, byte by byte: left Ctrl, Shift, Alt, GUI and their right
      counterparts as bits of byte 0, and six scan codes, those up to 3 being error codes. */
  lemma ReportShows(keys: KeyTable, r: Report, key: nat)
    ensures Shows(keys, r, key) <==>
      || (r[0] % 2 == 1 && keys[224] == key) || (r[0] / 2 % 2 == 1 && keys[225] == key)
      || (r[0] / 4 % 2 == 1 && keys[226] == key) || (r[0] / 8 % 2 == 1 && keys[227] == key)
      || (r[0] / 16 % 2 == 1 && keys[228] == key) || (r[0] / 32 % 2 == 1 && keys[229] == key)
      || (r[0] / 64 % 2 == 1 && keys[230] == key) || (r[0] / 128 == 1 && keys[231] == key)
      || (key != 0 && exists i :: 2 <= i < 8 && r[i] > 3 && keys[r[i]] == key)
  {
    ModifierBits(r);
    hide Modifier;
    assert (exists i :: 0 <= i < 8 && Modifier(r, i) && keys[224 + i] == key) <==>
      || (Modifier(r, 0) && keys[224 + 0] == key) || (Modifier(r, 1) && keys[224 + 1] == key)
      || (Modifier(r, 2) && keys[224 + 2] == key) || (Modifier(r, 3) && keys[224 + 3] == key)
      || (Modifier(r, 4) && keys[224 + 4] == key) || (Modifier(r, 5) && keys[224 + 5] == key)
      || (Modifier(r, 6) && keys[224 + 6] == key) || (Modifier(r, 7) && keys[224 + 7] == key);
    assert (exists i :: 2 <= i < 8 && IsKey(keys, r[i]) && keys[r[i]] == key)
      <==> key != 0 && exists i :: 2 <= i < 8 && r[i] > 3 && keys[r[i]] == key;
  }

  // ---------------------------------------------------------------------------------------------
  // The events of one report
  // ---------------------------------------------------------------------------------------------

  ghost predicate Sets(keys: KeyTable, now: Report, i: nat, key: nat)
    requires i < 8
  {
    Modifier(now, i) && keys[FIRST_MODIFIER + i] == key
  }

  ghost predicate Clears(keys: KeyTable, now: Report, i: nat, key: nat)
    requires i < 8
  {
    !Modifier(now, i) && keys[FIRST_MODIFIER + i] == key
  }

  /** Slot i of the old report holds a key whose scan code is gone. */
  ghost predicate Releases(keys: KeyTable, was: Report, now: Report, i: nat, key: nat)
    requires 2 <= i < REPORT_SIZE
  {
    IsKey(keys, was[i]) && !Holds(now, was[i]) && keys[was[i]] == key
  }

  /** Slot i of the new report holds a key whose scan code was not there. */
  ghost predicate Presses(keys: KeyTable, was: Report, now: Report, i: nat, key: nat)
    requires 2 <= i < REPORT_SIZE
  {
    IsKey(keys, now[i]) && !Holds(was, now[i]) && keys[now[i]] == key
  }

  function AfterModifiers(keys: KeyTable, now: Report, down: set<nat>, n: nat): set<nat>
    requires n <= 8
  {
    if n == 0 then down
    else
      var before := AfterModifiers(keys, now, down, n - 1);
      var key := keys[FIRST_MODIFIER + n - 1];
      if Modifier(now, n - 1) then before + {key} else before - {key}
  }

  /** The keys the input core takes for pressed after the first n bytes of both reports were compared */
  ghost function AfterSlots(keys: KeyTable, was: Report, now: Report, down: set<nat>, n: nat): set<nat>
    requires 2 <= n <= REPORT_SIZE
  {
    if n == 2 then down
    else
      var before := AfterSlots(keys, was, now, down, n - 1);
      var left := if Releases(keys, was, now, n - 1, keys[was[n - 1]]) then before - {keys[was[n - 1]]} else before;
      if Presses(keys, was, now, n - 1, keys[now[n - 1]]) then left + {keys[now[n - 1]]} else left
  }

  /** The keys the input core takes for pressed after a good report */
  ghost function AfterReport(keys: KeyTable, was: Report, now: Report, down: set<nat>): set<nat> {
    AfterSlots(keys, was, now, AfterModifiers(keys, now, down, 8), REPORT_SIZE)
  }

  // ---------------------------------------------------------------------------------------------
  // When the input core is right
  // ---------------------------------------------------------------------------------------------

  /** A key the new report shows survives its report: wherever it is released, the same slot or a later
      one holds a new scan code for it; wherever a modifier for it is up, a later modifier for it is
      down, or some slot holds a new scan code for it. */
  ghost predicate Survives(keys: KeyTable, was: Report, now: Report, key: nat) {
    && (forall i :: 2 <= i < REPORT_SIZE && Releases(keys, was, now, i, key) ==>
          exists j :: i <= j < REPORT_SIZE && Presses(keys, was, now, j, key))
    && (forall i :: 0 <= i < 8 && Clears(keys, now, i, key) ==>
          || (exists j :: i < j < 8 && Sets(keys, now, j, key))
          || (exists j :: 2 <= j < REPORT_SIZE && Presses(keys, was, now, j, key)))
  }

  ghost predicate NoKeyDropped(keys: KeyTable, was: Report, now: Report) {
    forall key :: Shows(keys, now, key) ==> Survives(keys, was, now, key)
  }

  lemma ModifierStep(keys: KeyTable, now: Report, down: set<nat>, n: nat, key: nat)
    requires 0 < n <= 8
    ensures key in AfterModifiers(keys, now, down, n) <==>
      || Sets(keys, now, n - 1, key)
      || (key in AfterModifiers(keys, now, down, n - 1) && !Clears(keys, now, n - 1, key))
  {
    hide Modifier;
  }

  lemma {:induction false} ModifiersLeave(keys: KeyTable, now: Report, down: set<nat>, n: nat, key: nat)
    requires n <= 8
    ensures key in AfterModifiers(keys, now, down, n) <==>
      || (exists i :: 0 <= i < n && Sets(keys, now, i, key) && forall j :: i < j < n ==> !Clears(keys, now, j, key))
      || (key in down && forall i :: 0 <= i < n ==> !Clears(keys, now, i, key))
  {
    hide Sets, Clears;
    if n > 0 {
      ModifiersLeave(keys, now, down, n - 1, key);
      ModifierStep(keys, now, down, n, key);
    }
  }

  lemma SlotStep(keys: KeyTable, was: Report, now: Report, down: set<nat>, n: nat, key: nat)
    requires 2 < n <= REPORT_SIZE
    ensures key in AfterSlots(keys, was, now, down, n) <==>
      || Presses(keys, was, now, n - 1, key)
      || (key in AfterSlots(keys, was, now, down, n - 1) && !Releases(keys, was, now, n - 1, key))
  {
    hide IsKey, Holds;
  }

  lemma {:induction false} SlotsLeave(keys: KeyTable, was: Report, now: Report, down: set<nat>, n: nat, key: nat)
    requires 2 <= n <= REPORT_SIZE
    ensures key in AfterSlots(keys, was, now, down, n) <==>
      || (exists i :: 2 <= i < n && Presses(keys, was, now, i, key)
                      && forall j :: i < j < n ==> !Releases(keys, was, now, j, key))
      || (key in down && forall i :: 2 <= i < n ==> !Releases(keys, was, now, i, key))
  {
    hide Presses, Releases;
    if n > 2 {
      SlotsLeave(keys, was, now, down, n - 1, key);
      SlotStep(keys, was, now, down, n, key);
    }
  }

  lemma {:induction false} LastPress(keys: KeyTable, was: Report, now: Report, i: nat, key: nat) returns (j: nat)
    requires 2 <= i < REPORT_SIZE && Presses(keys, was, now, i, key)
    ensures i <= j < REPORT_SIZE && Presses(keys, was, now, j, key)
    ensures forall m :: j < m < REPORT_SIZE ==> !Presses(keys, was, now, m, key)
    decreases REPORT_SIZE - i
  {
    hide Presses;
    j := i;
    if m :| i < m < REPORT_SIZE && Presses(keys, was, now, m, key) {
      j := LastPress(keys, was, now, m, key);
    }
  }

  lemma {:induction false} LastSet(keys: KeyTable, now: Report, i: nat, key: nat) returns (j: nat)
    requires i < 8 && Sets(keys, now, i, key)
    ensures i <= j < 8 && Sets(keys, now, j, key)
    ensures forall m :: j < m < 8 ==> !Sets(keys, now, m, key)
    decreases 8 - i
  {
    hide Sets;
    j := i;
    if m :| i < m < 8 && Sets(keys, now, m, key) {
      j := LastSet(keys, now, m, key);
    }
  }

  /** A key the new report does not show is up afterwards. */
  lemma HiddenKeysAreUp(keys: KeyTable, was: Report, now: Report, key: nat)
    requires !Shows(keys, now, key)
    ensures key !in AfterReport(keys, was, now, Pressed(keys, was))
  {
    var down := Pressed(keys, was);
    var mid := AfterModifiers(keys, now, down, 8);
    ModifiersLeave(keys, now, down, 8, key);
    SlotsLeave(keys, was, now, mid, REPORT_SIZE, key);
    NothingPressedAnew(keys, was, now, key);
    OldKeysAreReleased(keys, was, now, key);
  }

  /** A key the new report does not show is reported up, if the old one showed it. */
  lemma OldKeysAreReleased(keys: KeyTable, was: Report, now: Report, key: nat)
    requires Shows(keys, was, key) ==> !Shows(keys, now, key)
    ensures || !Shows(keys, was, key)
            || (exists i :: 0 <= i < 8 && Clears(keys, now, i, key))
            || (exists i :: 2 <= i < REPORT_SIZE && Releases(keys, was, now, i, key))
  {
    if i :| 0 <= i < 8 && Modifier(was, i) && keys[FIRST_MODIFIER + i] == key {
      assert Clears(keys, now, i, key);
    } else if i :| 2 <= i < REPORT_SIZE && IsKey(keys, was[i]) && keys[was[i]] == key {
      assert Releases(keys, was, now, i, key);
    }
  }

  lemma NothingPressedAnew(keys: KeyTable, was: Report, now: Report, key: nat)
    requires !Shows(keys, now, key)
    ensures forall i :: 0 <= i < 8 ==> !Sets(keys, now, i, key)
    ensures forall i :: 2 <= i < REPORT_SIZE ==> !Presses(keys, was, now, i, key)
  {
  }

  /** A key the new report shows is down afterwards exactly when it survives the report. */
  lemma ShownKeysAreDownIfTheySurvive(keys: KeyTable, was: Report, now: Report, key: nat)
    requires Shows(keys, now, key)
    ensures key in AfterReport(keys, was, now, Pressed(keys, was)) <==> Survives(keys, was, now, key)
  {
    var down := Pressed(keys, was);
    var mid := AfterModifiers(keys, now, down, 8);
    ModifiersLeave(keys, now, down, 8, key);
    SlotsLeave(keys, was, now, mid, REPORT_SIZE, key);
    if Survives(keys, was, now, key) {
      SurvivorIsDown(keys, was, now, key);
    }
    hide Sets, Clears, Presses, Releases, Modifier, Holds, IsKey;
  }

  lemma SurvivorIsDown(keys: KeyTable, was: Report, now: Report, key: nat)
    requires Shows(keys, now, key) && Survives(keys, was, now, key)
    ensures key in AfterReport(keys, was, now, Pressed(keys, was))
  {
    hide Sets, Clears, Presses, Releases, Shows, AfterModifiers, AfterSlots, Pressed;
    var down := Pressed(keys, was);
    var mid := AfterModifiers(keys, now, down, 8);
    SlotsLeave(keys, was, now, mid, REPORT_SIZE, key);
    if i :| 2 <= i < REPORT_SIZE && Presses(keys, was, now, i, key) {
      var j := LastPress(keys, was, now, i, key);
    } else {
      hide Survives;
      SurvivorsModifiers(keys, was, now, key);
    }
  }

  /** A survivor that no slot presses is down after the modifiers, and no slot releases it. */
  lemma SurvivorsModifiers(keys: KeyTable, was: Report, now: Report, key: nat)
    requires Shows(keys, now, key) && Survives(keys, was, now, key)
    requires forall i :: 2 <= i < REPORT_SIZE ==> !Presses(keys, was, now, i, key)
    ensures key in AfterModifiers(keys, now, Pressed(keys, was), 8)
    ensures forall i :: 2 <= i < REPORT_SIZE ==> !Releases(keys, was, now, i, key)
  {
    hide Sets, Clears, Presses, Releases, Shows, AfterModifiers, Pressed;
    ModifiersLeave(keys, now, Pressed(keys, was), 8, key);
    if i :| 0 <= i < 8 && Sets(keys, now, i, key) {
      var j := LastSet(keys, now, i, key);
    } else {
      OnlyKeptCodesShow(keys, was, now, key);
    }
  }

  /** A shown key that nothing reports anew was shown before. */
  lemma OnlyKeptCodesShow(keys: KeyTable, was: Report, now: Report, key: nat)
    requires Shows(keys, now, key)
    requires forall i :: 0 <= i < 8 ==> !Sets(keys, now, i, key)
    requires forall i :: 2 <= i < REPORT_SIZE ==> !Presses(keys, was, now, i, key)
    ensures Shows(keys, was, key)
  {
    if i :| 0 <= i < 8 && Modifier(now, i) && keys[FIRST_MODIFIER + i] == key {
      assert Sets(keys, now, i, key);
    } else {
      var i :| 2 <= i < REPORT_SIZE && IsKey(keys, now[i]) && keys[now[i]] == key;
      assert !Presses(keys, was, now, i, key);
    }
  }

  /** When the input core knew the keys of the old report, it knows those of the new one afterwards if
      and only if no key is dropped on the way. */
  lemma CoreIsRightExactly(keys: KeyTable, was: Report, now: Report)
    ensures AfterReport(keys, was, now, Pressed(keys, was)) == Pressed(keys, now) <==> NoKeyDropped(keys, was, now)
  {
    hide Survives, AfterReport, Shows;
    forall key ensures key in AfterReport(keys, was, now, Pressed(keys, was))
                  <==> Shows(keys, now, key) && Survives(keys, was, now, key) {
      if Shows(keys, now, key) {
        ShownKeysAreDownIfTheySurvive(keys, was, now, key);
      } else {
        HiddenKeysAreUp(keys, was, now, key);
      }
    }
  }

  // ---------------------------------------------------------------------------------------------
  // Tables, runs, and two reports that lose a key
  // ---------------------------------------------------------------------------------------------

  /** A scan code that one of two reports shows or may show: a key in a slot, or a modifier */
  ghost predicate InUse(keys: KeyTable, was: Report, now: Report, code: nat) {
    || IsModifier(code)
    || (exists i :: 2 <= i < REPORT_SIZE && IsKey(keys, was[i]) && was[i] == code)
    || (exists i :: 2 <= i < REPORT_SIZE && IsKey(keys, now[i]) && now[i] == code)
  }

  /** The table is one to one on the codes in use, and no slot holds the code of a modifier. */
  ghost predicate Distinguishes(keys: KeyTable, was: Report, now: Report) {
    && (forall i :: 2 <= i < REPORT_SIZE ==> !IsModifier(was[i]))
    && (forall i :: 2 <= i < REPORT_SIZE ==> !IsModifier(now[i]))
    && forall a: byte, b: byte ::
         InUse(keys, was, now, a) && InUse(keys, was, now, b) && keys[a] == keys[b] ==> a == b
  }

  /** Where the table is one to one, no key is dropped. */
  lemma OneToOneDropsNothing(keys: KeyTable, was: Report, now: Report)
    requires Distinguishes(keys, was, now)
    ensures NoKeyDropped(keys, was, now)
  {
    hide Distinguishes, Shows, Releases, Clears, Presses, Sets;
    forall key | Shows(keys, now, key) ensures Survives(keys, was, now, key) {
      forall i | 2 <= i < REPORT_SIZE ensures !Releases(keys, was, now, i, key) {
        ShownIsNotReleased(keys, was, now, i, key);
      }
      forall i | 0 <= i < 8 ensures !Clears(keys, now, i, key) {
        ShownIsNotCleared(keys, was, now, i, key);
      }
    }
  }

  lemma ShownIsNotReleased(keys: KeyTable, was: Report, now: Report, i: nat, key: nat)
    requires Distinguishes(keys, was, now) && Shows(keys, now, key) && 2 <= i < REPORT_SIZE
    ensures !Releases(keys, was, now, i, key)
  {
    if IsKey(keys, was[i]) && keys[was[i]] == key {
      assert InUse(keys, was, now, was[i]);
      if j :| 0 <= j < 8 && Modifier(now, j) && keys[FIRST_MODIFIER + j] == key {
        assert InUse(keys, was, now, FIRST_MODIFIER + j);
      } else {
        var j :| 2 <= j < REPORT_SIZE && IsKey(keys, now[j]) && keys[now[j]] == key;
        assert InUse(keys, was, now, now[j]);
        assert Holds(now, was[i]);
      }
    }
  }

  lemma ShownIsNotCleared(keys: KeyTable, was: Report, now: Report, i: nat, key: nat)
    requires Distinguishes(keys, was, now) && Shows(keys, now, key) && i < 8
    ensures !Clears(keys, now, i, key)
  {
    if keys[FIRST_MODIFIER + i] == key {
      NoSlotShowsModifier(keys, was, now, i);
      var j :| 0 <= j < 8 && Modifier(now, j) && keys[FIRST_MODIFIER + j] == key;
      assert InUse(keys, was, now, FIRST_MODIFIER + i) && InUse(keys, was, now, FIRST_MODIFIER + j);
    }
  }

  lemma NoSlotShowsModifier(keys: KeyTable, was: Report, now: Report, i: nat)
    requires Distinguishes(keys, was, now) && i < 8
    ensures forall j :: 2 <= j < REPORT_SIZE && IsKey(keys, now[j]) ==> keys[now[j]] != keys[FIRST_MODIFIER + i]
  {
    assert InUse(keys, was, now, FIRST_MODIFIER + i);
    forall j | 2 <= j < REPORT_SIZE && IsKey(keys, now[j]) ensures keys[now[j]] != keys[FIRST_MODIFIER + i] {
      assert InUse(keys, was, now, now[j]);
    }
  }

  // ---------------------------------------------------------------------------------------------
  // Runs of reports
  // ---------------------------------------------------------------------------------------------

  /** downs[i] is what the input core takes for pressed after report i. */
  ghost predicate IsRun(keys: KeyTable, reports: seq<Report>, downs: seq<set<nat>>) {
    && |downs| == |reports| > 0 && downs[0] == Pressed(keys, reports[0])
    && forall i :: 0 <= i < |reports| - 1 ==> downs[i + 1] == AfterReport(keys, reports[i], reports[i + 1], downs[i])
  }

  lemma {:induction false} RightUpTo(keys: KeyTable, reports: seq<Report>, downs: seq<set<nat>>, n: nat)
    requires IsRun(keys, reports, downs) && n < |reports|
    requires forall i :: 0 <= i < n ==> NoKeyDropped(keys, reports[i], reports[i + 1])
    ensures downs[n] == Pressed(keys, reports[n])
  {
    hide NoKeyDropped, AfterReport, Pressed;
    if n > 0 {
      RightUpTo(keys, reports, downs, n - 1);
      CoreIsRightExactly(keys, reports[n - 1], reports[n]);
    }
  }

  /** The input core is right after every report of a run if and only if no report drops a key. */
  lemma RunIsRightExactly(keys: KeyTable, reports: seq<Report>, downs: seq<set<nat>>)
    requires IsRun(keys, reports, downs)
    ensures (forall i :: 0 <= i < |reports| ==> downs[i] == Pressed(keys, reports[i]))
       <==> (forall i :: 0 <= i < |reports| - 1 ==> NoKeyDropped(keys, reports[i], reports[i + 1]))
  {
    hide NoKeyDropped, AfterReport, Pressed;
    if forall i :: 0 <= i < |reports| ==> downs[i] == Pressed(keys, reports[i]) {
      forall i | 0 <= i < |reports| - 1 ensures NoKeyDropped(keys, reports[i], reports[i + 1]) {
        CoreIsRightExactly(keys, reports[i], reports[i + 1]);
      }
    }
    if forall i :: 0 <= i < |reports| - 1 ==> NoKeyDropped(keys, reports[i], reports[i + 1]) {
      forall i | 0 <= i < |reports| ensures downs[i] == Pressed(keys, reports[i]) {
        RightUpTo(keys, reports, downs, i);
      }
    }
  }
}
