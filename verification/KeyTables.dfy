/** The key table of keyboard/usbkbd.c, the scan codes in it that share a key, and what that does. */
module KeyTables {
  import opened Common
  import opened KeyReports

  /** usb_kbd_keycode, sixteen scan codes a row */
  const ROWS: seq<seq<nat>> := [
    [0, 0, 0, 0, 30, 48, 46, 32, 18, 33, 34, 35, 23, 36, 37, 38],
    [50, 49, 24, 25, 16, 19, 31, 20, 22, 47, 17, 45, 21, 44, 2, 3],
    [4, 5, 6, 7, 8, 9, 10, 11, 28, 1, 14, 15, 57, 12, 13, 26],
    [27, 43, 43, 39, 40, 41, 51, 52, 53, 58, 59, 60, 61, 62, 63, 64],
    [65, 66, 67, 68, 87, 88, 99, 70, 119, 110, 102, 104, 111, 107, 109, 106],
    [105, 108, 103, 69, 98, 55, 74, 78, 96, 79, 80, 81, 75, 76, 77, 71],
    [72, 73, 82, 83, 86, 127, 116, 117, 183, 184, 185, 186, 187, 188, 189, 190],
    [191, 192, 193, 194, 134, 138, 130, 132, 128, 129, 131, 137, 133, 135, 136, 113],
    [115, 114, 0, 0, 0, 121, 0, 89, 93, 124, 92, 94, 95, 0, 0, 0],
    [122, 123, 90, 91, 85, 0, 0, 0, 0, 0, 0, 0, 0, 0, 0, 0],
    [0, 0, 0, 0, 0, 0, 0, 0, 0, 0, 0, 0, 0, 0, 0, 0],
    [0, 0, 0, 0, 0, 0, 0, 0, 0, 0, 0, 0, 0, 0, 0, 0],
    [0, 0, 0, 0, 0, 0, 0, 0, 0, 0, 0, 0, 0, 0, 0, 0],
    [0, 0, 0, 0, 0, 0, 0, 0, 0, 0, 0, 0, 0, 0, 0, 0],
    [29, 42, 56, 125, 97, 54, 100, 126, 164, 166, 165, 163, 161, 115, 114, 113],
    [150, 158, 159, 128, 136, 177, 178, 176, 142, 152, 173, 140, 0, 0, 0, 0]
  ]

  /** For each key the smallest scan code that has it */
  const CODES: seq<seq<nat>> := [
    [0, 41, 30, 31, 32, 33, 34, 35, 36, 37, 38, 39, 45, 46, 42, 43],
    [20, 26, 8, 21, 23, 28, 24, 12, 18, 19, 47, 48, 40, 224, 4, 22],
    [7, 9, 10, 11, 13, 14, 15, 51, 52, 53, 225, 49, 29, 27, 6, 25],
    [5, 17, 16, 54, 55, 56, 229, 85, 226, 44, 57, 58, 59, 60, 61, 62],
    [63, 64, 65, 66, 67, 83, 71, 95, 96, 97, 86, 92, 93, 94, 87, 89],
    [90, 91, 98, 99, 0, 148, 100, 68, 69, 135, 146, 147, 138, 136, 139, 140],
    [88, 228, 84, 70, 230, 0, 74, 82, 75, 80, 79, 77, 81, 78, 73, 76],
    [0, 127, 129, 128, 102, 103, 0, 72, 0, 133, 144, 145, 137, 227, 231, 101],
    [120, 121, 118, 122, 119, 124, 116, 125, 126, 123, 117, 0, 251, 0, 248, 0],
    [0, 0, 0, 0, 0, 0, 240, 0, 249, 0, 0, 0, 0, 0, 241, 242],
    [0, 236, 0, 235, 232, 234, 233, 0, 0, 0, 0, 0, 0, 250, 0, 0],
    [247, 245, 246, 0, 0, 0, 0, 104, 105, 106, 107, 108, 109, 110, 111, 112],
    [113, 114, 115, 0, 0, 0, 0, 0, 0, 0, 0, 0, 0, 0, 0, 0],
    [0, 0, 0, 0, 0, 0, 0, 0, 0, 0, 0, 0, 0, 0, 0, 0],
    [0, 0, 0, 0, 0, 0, 0, 0, 0, 0, 0, 0, 0, 0, 0, 0],
    [0, 0, 0, 0, 0, 0, 0, 0, 0, 0, 0, 0, 0, 0, 0, 0]
  ]

  function DriverKey(code: byte): nat {
    if code / 16 < |ROWS| && code % 16 < |ROWS[code / 16]| then ROWS[code / 16][code % 16] else 0
  }

  function DriverTable(): KeyTable {
    seq(256, code requires 0 <= code < 256 => DriverKey(code))
  }

  function CodeOf(key: nat): nat
    requires key < 256
  {
    if key / 16 < |CODES| && key % 16 < |CODES[key / 16]| then CODES[key / 16][key % 16] else 0
  }

  /** The scan code whose key this one has as well */
  function Original(code: nat): nat {
    if code == 0x32 then 0x31
    else if code == 0xf3 then 0x78
    else if code == 0xf4 then 0x7e
    else if code == 0xef then 0x7f
    else if code == 0xed then 0x80
    else if code == 0xee then 0x81
    else code
  }

  /** The key at this place of the table leads back to the original of its scan code. */
  predicate LeadsBack(row: nat, j: nat)
    requires row < 16 && j < 16
  {
    var key := ROWS[row][j];
    key != 0 ==> key < 256 && CodeOf(key) == Original(16 * row + j)
  }

  // Row by row: the solver does not get through the whole table at once.

  lemma Row0(j: nat)
    requires j < 16
    ensures LeadsBack(0, j)
  {
  }

  lemma Row1(j: nat)
    requires j < 16
    ensures LeadsBack(1, j)
  {
  }

  lemma Row2(j: nat)
    requires j < 16
    ensures LeadsBack(2, j)
  {
  }

  lemma Row3(j: nat)
    requires j < 16
    ensures LeadsBack(3, j)
  {
  }

  lemma Row4(j: nat)
    requires j < 16
    ensures LeadsBack(4, j)
  {
  }

  lemma Row5(j: nat)
    requires j < 16
    ensures LeadsBack(5, j)
  {
  }

  lemma Row6(j: nat)
    requires j < 16
    ensures LeadsBack(6, j)
  {
  }

  lemma Row7(j: nat)
    requires j < 16
    ensures LeadsBack(7, j)
  {
  }

  lemma Row8(j: nat)
    requires j < 16
    ensures LeadsBack(8, j)
  {
  }

  lemma Row9(j: nat)
    requires j < 16
    ensures LeadsBack(9, j)
  {
  }

  lemma Row14(j: nat)
    requires j < 16
    ensures LeadsBack(14, j)
  {
  }

  lemma Row15(j: nat)
    requires j < 16
    ensures LeadsBack(15, j)
  {
  }

  lemma CodeIsOriginal(code: byte)
    requires DriverKey(code) != 0
    ensures DriverKey(code) < 256 && CodeOf(DriverKey(code)) == Original(code)
  {
    hide CodeOf, Original;
    var r, j := code / 16, code % 16;
    assert code == 16 * r + j;
    if r == 0 {
      Row0(j);
    } else if r == 1 {
      Row1(j);
    } else if r == 2 {
      Row2(j);
    } else if r == 3 {
      Row3(j);
    } else if r == 4 {
      Row4(j);
    } else if r == 5 {
      Row5(j);
    } else if r == 6 {
      Row6(j);
    } else if r == 7 {
      Row7(j);
    } else if r == 8 {
      Row8(j);
    } else if r == 9 {
      Row9(j);
    } else if r == 14 {
      Row14(j);
    } else if r == 15 {
      Row15(j);
    } else {
      EmptyRow(r, j);
    }
  }

  lemma EmptyRow(r: nat, j: nat)
    requires 10 <= r <= 13 && j < 16
    ensures ROWS[r][j] == 0
  {
  }

  lemma SharedWithOriginal(code: byte)
    ensures Original(code) < 256 && DriverKey(Original(code)) == DriverKey(code)
  {
  }

  /** Two scan codes have the same key if and only if they have the same original: six pairs share. */
  lemma SharedKeys(a: byte, b: byte)
    requires DriverKey(a) != 0
    ensures DriverKey(a) == DriverKey(b) <==> Original(a) == Original(b)
  {
    hide DriverKey, CodeOf, Original;
    SharedWithOriginal(a);
    SharedWithOriginal(b);
    CodeIsOriginal(a);
    if DriverKey(b) != 0 {
      CodeIsOriginal(b);
    }
  }

  /** Modifiers share their keys with no other scan code. */
  lemma ModifiersAreOriginal(a: byte, b: byte)
    requires IsModifier(a)
    ensures DriverKey(a) != 0
    ensures Original(b) == Original(a) ==> b == a
  {
  }

  /** No slot holds a modifier, and no two slots of the reports hold both codes of one of the six pairs. */
  ghost predicate PairsApart(was: Report, now: Report) {
    && (forall i :: 2 <= i < REPORT_SIZE ==> !IsModifier(was[i]))
    && (forall i :: 2 <= i < REPORT_SIZE ==> !IsModifier(now[i]))
    && forall a: byte, b: byte ::
         (Holds(was, a) || Holds(now, a)) && (Holds(was, b) || Holds(now, b)) && Original(a) == Original(b) ==> a == b
  }

  lemma CodesInUse(was: Report, now: Report, code: byte)
    requires InUse(DriverTable(), was, now, code)
    ensures DriverKey(code) != 0
    ensures Holds(was, code) || Holds(now, code) || IsModifier(code)
  {
    if IsModifier(code) {
      ModifiersAreOriginal(code, code);
    }
  }

  /** With the driver's table a key can only be dropped when both codes of a pair are in use. */
  lemma OnlyPairsDropKeys(was: Report, now: Report)
    requires PairsApart(was, now)
    ensures NoKeyDropped(DriverTable(), was, now)
    ensures AfterReport(DriverTable(), was, now, Pressed(DriverTable(), was)) == Pressed(DriverTable(), now)
  {
    hide DriverKey, Original, InUse, NoKeyDropped, AfterReport, Pressed;
    var keys := DriverTable();
    forall a: byte, b: byte | InUse(keys, was, now, a) && InUse(keys, was, now, b) && keys[a] == keys[b] ensures a == b {
      CodesInUse(was, now, a);
      CodesInUse(was, now, b);
      SharedKeys(a, b);
      if IsModifier(a) {
        ModifiersAreOriginal(a, b);
      } else if IsModifier(b) {
        ModifiersAreOriginal(b, a);
      }
    }
    OneToOneDropsNothing(keys, was, now);
    CoreIsRightExactly(keys, was, now);
  }

  /** Both keys 43 held and one of them released: the input core takes the other one for released too. */
  lemma ReleasedWithItsTwin()
    ensures var was, now := [0, 0, 0x31, 0x32, 0, 0, 0, 0], [0, 0, 0x31, 0, 0, 0, 0, 0];
      43 in Pressed(DriverTable(), now) && 43 !in AfterReport(DriverTable(), was, now, Pressed(DriverTable(), was))
  {
    var was: Report, now: Report := [0, 0, 0x31, 0x32, 0, 0, 0, 0], [0, 0, 0x31, 0, 0, 0, 0, 0];
    KeyLost(was, now, 2, 3);
  }

  /** One key 43 released and the other one pressed in an earlier slot: pressed, then released. */
  lemma PressedBeforeItsTwinIsReleased()
    ensures var was, now := [0, 0, 0, 0x31, 0, 0, 0, 0], [0, 0, 0x32, 0, 0, 0, 0, 0];
      43 in Pressed(DriverTable(), now) && 43 !in AfterReport(DriverTable(), was, now, Pressed(DriverTable(), was))
  {
    var was: Report, now: Report := [0, 0, 0, 0x31, 0, 0, 0, 0], [0, 0, 0x32, 0, 0, 0, 0, 0];
    KeyLost(was, now, 2, 3);
  }

  lemma KeyLost(was: Report, now: Report, shown: nat, gone: nat)
    requires 2 <= shown < gone < REPORT_SIZE && now[shown] in [0x31, 0x32] && was[gone] in [0x31, 0x32]
    requires !Holds(now, was[gone]) && forall i :: gone <= i < REPORT_SIZE ==> now[i] == 0
    ensures 43 in Pressed(DriverTable(), now)
    ensures 43 !in AfterReport(DriverTable(), was, now, Pressed(DriverTable(), was))
  {
    var keys := DriverTable();
    BackslashKeysAreShared();
    hide DriverKey, AfterReport, Pressed;
    assert IsKey(keys, now[shown]) && keys[now[shown]] == 43;
    assert Releases(keys, was, now, gone, 43);
    ShownKeysAreDownIfTheySurvive(keys, was, now, 43);
  }

  lemma BackslashKeysAreShared()
    ensures DriverKey(0x31) == DriverKey(0x32) == 43
  {
  }
}
