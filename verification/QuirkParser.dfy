/**
 adjust_quirks of usb-storage (USB/usb_1.c): the "quirks=" module parameter, a comma-separated list of
 VID:PID:flags entries, parsed with a moving pointer, against a specification that first cuts the
 string into entries. simple_strtoul is the kernel's: base 16, an optional 0x, no sign, no blanks,
 wrapping at the width of unsigned long.
*/
module QuirkParser {
  import opened Common

  /** A C string without its terminator */
  type Text = seq<byte>

  const COMMA: byte := ',' as int
  const COLON: byte := ':' as int

  /** c | 0x20 */
  function ToLower(c: byte): byte {
    if c / 32 % 2 == 0 then c + 32 else c
  }

  // ---------------------------------------------------------------------------------------------
  // Flags
  // ---------------------------------------------------------------------------------------------

  /** The US_FL flags the parameter can set, and all the others */
  datatype Flag =
    | SaneSense | BadSense | FixCapacity | NoReadDiscInfo | NoReadCapacity16 | CapacityHeuristics
    | IgnoreDevice | NotLockable | MaxSectors64 | InitialRead10 | CapacityOk | WriteCache
    | IgnoreResidue | SingleLun | NoWpDetect
    | Unmasked(bit: nat)

  const MASK: set<Flag> := {SaneSense, BadSense, FixCapacity, CapacityHeuristics, IgnoreDevice, NotLockable,
    MaxSectors64, CapacityOk, IgnoreResidue, SingleLun, NoWpDetect, NoReadDiscInfo, NoReadCapacity16,
    InitialRead10, WriteCache}

  /** The flag a letter, already in lower case, stands for */
  function FlagOf(letter: byte): Option<Flag> {
    if letter == 'a' as int then Some(SaneSense)
    else if letter == 'b' as int then Some(BadSense)
    else if letter == 'c' as int then Some(FixCapacity)
    else if letter == 'd' as int then Some(NoReadDiscInfo)
    else if letter == 'e' as int then Some(NoReadCapacity16)
    else if letter == 'h' as int then Some(CapacityHeuristics)
    else if letter == 'i' as int then Some(IgnoreDevice)
    else if letter == 'l' as int then Some(NotLockable)
    else if letter == 'm' as int then Some(MaxSectors64)
    else if letter == 'n' as int then Some(InitialRead10)
    else if letter == 'o' as int then Some(CapacityOk)
    else if letter == 'p' as int then Some(WriteCache)
    else if letter == 'r' as int then Some(IgnoreResidue)
    else if letter == 's' as int then Some(SingleLun)
    else if letter == 'w' as int then Some(NoWpDetect)
    else None
  }

  /** The flags the letters of a text name, in either case; other characters name none. */
  ghost function Named(text: Text): set<Flag> {
    set c | c in text && FlagOf(ToLower(c)).Some? :: FlagOf(ToLower(c)).value
  }

  // ---------------------------------------------------------------------------------------------
  // Numbers
  // ---------------------------------------------------------------------------------------------

  function HexDigit(c: byte): Option<nat> {
    var lc := ToLower(c);
    if '0' as int <= c <= '9' as int then Some(c - '0' as int)
    else if 'a' as int <= lc <= 'f' as int then Some(lc - 'a' as int + 10)
    else None
  }

  function Digits(s: Text): (n: nat)
    ensures n <= |s|
    ensures forall i :: 0 <= i < n ==> HexDigit(s[i]).Some?
    ensures n < |s| ==> HexDigit(s[n]).None?
  {
    if s == [] || HexDigit(s[0]).None? then 0
    else
      var n := Digits(s[1..]);
      assert forall i :: 0 < i < n + 1 ==> s[i] == s[1..][i - 1];
      n + 1
  }

  function HexValue(s: Text, word: nat): nat
    requires word > 0 && forall i :: 0 <= i < |s| ==> HexDigit(s[i]).Some?
  {
    if s == [] then 0 else (HexValue(s[..|s| - 1], word) * 16 + HexDigit(s[|s| - 1]).value) % word
  }

  function Prefix(s: Text): (n: nat)
    ensures n <= |s|
  {
    if |s| >= 2 && s[0] == '0' as int && ToLower(s[1]) == 'x' as int then 2 else 0
  }

  /** simple_strtoul(s, &end, 16): the value, and how many characters it took */
  function Strtoul(s: Text, word: nat): (r: (nat, nat))
    requires word > 0
    ensures r.1 <= |s|
  {
    var start := Prefix(s);
    var n := Digits(s[start..]);
    (HexValue(s[start..][..n], word), start + n)
  }

  // ---------------------------------------------------------------------------------------------
  // The specification
  // ---------------------------------------------------------------------------------------------

  /** The length of the first entry */
  function EntryLen(s: Text): (n: nat)
    ensures n <= |s|
    ensures forall i :: 0 <= i < n ==> s[i] != COMMA
    ensures n < |s| ==> s[n] == COMMA
  {
    if s == [] || s[0] == COMMA then 0
    else
      var n := EntryLen(s[1..]);
      assert forall i :: 0 < i < n + 1 ==> s[i] == s[1..][i - 1];
      n + 1
  }

  ghost function Entries(s: Text): (e: seq<Text>)
    ensures e != []
    decreases |s|
  {
    var n := EntryLen(s);
    [s[..n]] + if n < |s| then Entries(s[n + 1..]) else []
  }

  /** VID:PID:flags for this device: the flags */
  ghost function EntryFlags(e: Text, vid: nat, pid: nat, word: nat): Option<Text>
    requires word > 0
  {
    var (v, i) := Strtoul(e, word);
    if v == vid && i < |e| && e[i] == COLON then
      var rest := e[i + 1..];
      var (p, j) := Strtoul(rest, word);
      if p == pid && j < |rest| && rest[j] == COLON then Some(rest[j + 1..]) else None
    else None
  }

  ghost function FirstMatch(entries: seq<Text>, vid: nat, pid: nat, word: nat): Option<Text>
    requires word > 0
  {
    if entries == [] then None
    else
      match EntryFlags(entries[0], vid, pid, word)
      case Some(f) => Some(f)
      case None => FirstMatch(entries[1..], vid, pid, word)
  }

  ghost function Adjusted(fflags: set<Flag>, quirks: Text, vid: nat, pid: nat, word: nat): set<Flag>
    requires word > 0
  {
    match FirstMatch(Entries(quirks), vid, pid, word)
    case Some(text) => fflags - MASK + Named(text)
    case None => fflags
  }

  // ---------------------------------------------------------------------------------------------
  // Facts
  // ---------------------------------------------------------------------------------------------

  lemma DigitsAre(s: Text, n: nat)
    requires n <= |s| && (forall i :: 0 <= i < n ==> HexDigit(s[i]).Some?) && (n < |s| ==> HexDigit(s[n]).None?)
    ensures Digits(s) == n
  {
  }

  lemma EntryLenIs(s: Text, n: nat)
    requires n <= |s| && (forall i :: 0 <= i < n ==> s[i] != COMMA) && (n < |s| ==> s[n] == COMMA)
    ensures EntryLen(s) == n
  {
  }

  ghost function Joined(entries: seq<Text>): Text {
    if entries == [] then []
    else if |entries| == 1 then entries[0]
    else entries[0] + [COMMA] + Joined(entries[1..])
  }

  /** The entries are the pieces of the string between its commas: put together they give the string... */
  lemma {:induction false} EntriesJoin(s: Text)
    ensures Joined(Entries(s)) == s
    decreases |s|
  {
    hide EntryLen, Joined;
    var n := EntryLen(s);
    if n < |s| {
      var tail := s[n + 1..];
      EntriesJoin(tail);
      EntriesStep(s);
      JoinedStep(s[..n], Entries(tail));
      CutAt(s, n);
    } else {
      assert s[..n] == s && Entries(s) == [s];
      JoinedOne(s);
    }
  }

  lemma JoinedOne(e: Text)
    ensures Joined([e]) == e
  {
  }

  lemma CutAt(s: Text, n: nat)
    requires n < |s|
    ensures s == s[..n] + [s[n]] + s[n + 1..]
  {
  }

  lemma JoinedStep(e: Text, rest: seq<Text>)
    requires rest != []
    ensures Joined([e] + rest) == e + [COMMA] + Joined(rest)
  {
    assert ([e] + rest)[1..] == rest;
  }

  lemma EntriesStep(s: Text)
    requires EntryLen(s) < |s|
    ensures var n := EntryLen(s);
      Entries(s) == [s[..n]] + Entries(s[n + 1..]) && |Entries(s)| > 1 && Entries(s)[1..] == Entries(s[n + 1..])
  {
    hide EntryLen;
    var n := EntryLen(s);
    var rest := Entries(s[n + 1..]);
    assert Entries(s) == [s[..n]] + rest;
  }

  /** ...and none of them holds a comma. */
  lemma {:induction false} EntriesHoldNoComma(s: Text, i: nat)
    requires i < |Entries(s)|
    ensures COMMA !in Entries(s)[i]
    decreases |s|
  {
    var n := EntryLen(s);
    if n < |s| {
      EntriesStep(s);
      if i > 0 {
        EntriesHoldNoComma(s[n + 1..], i - 1);
      }
    }
  }

  /** A number does not run past the entry it stands in. */
  lemma NumberEndsInEntry(s: Text, word: nat)
    requires word > 0
    ensures Strtoul(s, word) == Strtoul(s[..EntryLen(s)], word)
  {
    hide HexValue, Digits, HexDigit, ToLower;
    var n := EntryLen(s);
    PrefixInEntry(s);
    var start := Prefix(s);
    assert s[..n][start..] == s[start..][..n - start];
    CommaIsNoDigit();
    DigitsInEntry(s[start..], n - start);
  }

  lemma CommaIsNoDigit()
    ensures HexDigit(COMMA).None?
  {
  }

  lemma PrefixInEntry(s: Text)
    ensures Prefix(s) <= EntryLen(s) && Prefix(s[..EntryLen(s)]) == Prefix(s)
  {
  }

  lemma DigitsInEntry(t: Text, m: nat)
    requires m <= |t| && (m < |t| ==> HexDigit(t[m]).None?)
    ensures Digits(t[..m]) == Digits(t) && t[..m][..Digits(t)] == t[..Digits(t)]
  {
    hide HexDigit;
    var d := Digits(t[..m]);
    assert forall i :: 0 <= i < d ==> t[..m][i] == t[i];
    DigitsAre(t, d);
  }

  lemma NamedNone(text: Text)
    ensures Named(text[..0]) == {}
  {
  }

  /** Named grows with each letter. */
  lemma NamedGrows(text: Text, c: byte)
    ensures Named(text + [c]) == Named(text) + match FlagOf(ToLower(c)) case Some(f) => {f} case None => {}
  {
  }

  function Letter(f: Flag): byte
    requires f in MASK
  {
    match f
    case SaneSense => 'a' as int
    case BadSense => 'b' as int
    case FixCapacity => 'c' as int
    case NoReadDiscInfo => 'd' as int
    case NoReadCapacity16 => 'e' as int
    case CapacityHeuristics => 'h' as int
    case IgnoreDevice => 'i' as int
    case NotLockable => 'l' as int
    case MaxSectors64 => 'm' as int
    case InitialRead10 => 'n' as int
    case CapacityOk => 'o' as int
    case WriteCache => 'p' as int
    case IgnoreResidue => 'r' as int
    case SingleLun => 's' as int
    case NoWpDetect => 'w' as int
  }

  lemma LetterNames(f: Flag)
    requires f in MASK
    ensures FlagOf(ToLower(Letter(f))) == Some(f)
  {
  }

  /** a, b, c, d, e, h, i, l, m, n, o, p, r, s and w, and what each stands for */
  const LETTERS: Text := [97, 98, 99, 100, 101, 104, 105, 108, 109, 110, 111, 112, 114, 115, 119]
  const FLAGS: seq<Flag> := [SaneSense, BadSense, FixCapacity, NoReadDiscInfo, NoReadCapacity16,
    CapacityHeuristics, IgnoreDevice, NotLockable, MaxSectors64, InitialRead10, CapacityOk, WriteCache,
    IgnoreResidue, SingleLun, NoWpDetect]

  /** Each of these letters names its flag, small or capital. */
  lemma LettersName(i: nat)
    requires i < 15
    ensures FlagOf(ToLower(LETTERS[i])) == FlagOf(ToLower(LETTERS[i] - 32)) == Some(FLAGS[i])
  {
  }

  /** A character names a flag exactly when it is one of them once bit 5 is set. */
  lemma OnlyLettersName(c: byte)
    ensures FlagOf(ToLower(c)).Some? <==> ToLower(c) in LETTERS
  {
  }

  lemma NamedIsMasked(c: byte)
    ensures FlagOf(c).Some? ==> FlagOf(c).value in MASK
  {
  }

  /** The flags letters can name are exactly the mask. */
  lemma MaskIsWhatLettersName(f: Flag)
    ensures f in MASK <==> exists c: byte :: FlagOf(ToLower(c)) == Some(f)
  {
    hide FlagOf;
    if f in MASK {
      LetterNames(f);
    }
    forall c: byte | FlagOf(ToLower(c)) == Some(f) ensures f in MASK {
      NamedIsMasked(ToLower(c));
    }
  }

  /** Flags outside the mask are never touched; for an entry that matches, those inside are exactly the
      ones its letters name. */
  lemma OnlyMaskedFlagsChange(fflags: set<Flag>, quirks: Text, vid: nat, pid: nat, word: nat, f: Flag)
    requires word > 0
    ensures var found := FirstMatch(Entries(quirks), vid, pid, word);
      f in Adjusted(fflags, quirks, vid, pid, word) <==>
        if found.None? || f !in MASK then f in fflags
        else exists c: byte :: c in found.value && FlagOf(ToLower(c)) == Some(f)
  {
    hide FlagOf, Entries, FirstMatch, EntryFlags;
    forall c: byte | FlagOf(ToLower(c)).Some? ensures FlagOf(ToLower(c)).value in MASK {
      NamedIsMasked(ToLower(c));
    }
  }

  // ---------------------------------------------------------------------------------------------
  // Entries as a user writes them
  // ---------------------------------------------------------------------------------------------

  function HexChar(d: nat): byte
    requires d < 16
  {
    if d < 10 then 48 + d else 87 + d
  }

  /** The four-digit hexadecimal text of an ID, as lsusb shows it */
  function Hex4(v: nat): (t: Text)
    requires v < 0x1_0000
    ensures |t| == 4
  {
    [HexChar(v / 0x1000), HexChar(v / 0x100 % 16), HexChar(v / 0x10 % 16), HexChar(v % 16)]
  }

  lemma HexCharIs(d: nat)
    requires d < 16
    ensures HexDigit(HexChar(d)) == Some(d) && ToLower(HexChar(d)) != 'x' as int && HexChar(d) != COMMA
  {
  }

  lemma FourDigitValue(t: Text, a: nat, b: nat, c: nat, d: nat, word: nat)
    requires word >= 0x1_0000 && |t| == 4 && a < 16 && b < 16 && c < 16 && d < 16
    requires HexDigit(t[0]) == Some(a) && HexDigit(t[1]) == Some(b)
    requires HexDigit(t[2]) == Some(c) && HexDigit(t[3]) == Some(d)
    ensures forall i :: 0 <= i < |t| ==> HexDigit(t[i]).Some?
    ensures HexValue(t, word) == 0x1000 * a + 0x100 * b + 0x10 * c + d
  {
    hide HexDigit;
    var t3, t2, t1 := t[..3], t[..2], t[..1];
    assert t3[..2] == t2 && t2[..1] == t1 && t1[..0] == [];
    assert HexValue([], word) == 0;
    Fits(a, word);
    assert HexValue(t1, word) == a;
    Fits(16 * a + b, word);
    assert HexValue(t2, word) == 16 * a + b;
    Fits(0x100 * a + 16 * b + c, word);
    assert HexValue(t3, word) == 0x100 * a + 16 * b + c;
    Fits(0x1000 * a + 0x100 * b + 16 * c + d, word);
  }

  lemma Fits(v: nat, word: nat)
    requires v < word
    ensures v % word == v
  {
  }

  /** An ID printed in hexadecimal and followed by no further digit is read back. */
  lemma PrintedNumber(v: nat, rest: Text, word: nat)
    requires v < 0x1_0000 <= word && (rest != [] ==> HexDigit(rest[0]).None?)
    ensures Strtoul(Hex4(v) + rest, word) == (v, 4)
  {
    var a, b, c, d := v / 0x1000, v / 0x100 % 16, v / 0x10 % 16, v % 16;
    assert v == 0x1000 * a + 0x100 * b + 0x10 * c + d by {
      assert v / 0x10 == v / 0x100 * 16 + c && v / 0x100 == v / 0x1000 * 16 + b;
    }
    HexCharIs(a);
    HexCharIs(b);
    HexCharIs(c);
    HexCharIs(d);
    hide HexChar, HexDigit, ToLower, HexValue;
    var s := Hex4(v) + rest;
    assert Prefix(s) == 0 && s[0..] == s;
    DigitsAre(s, 4);
    assert s[..4] == Hex4(v);
    FourDigitValue(s[..4], a, b, c, d, word);
  }

  /** So is one with 0x or 0X in front. */
  lemma PrefixedNumber(x: byte, v: nat, rest: Text, word: nat)
    requires v < 0x1_0000 <= word && (rest != [] ==> HexDigit(rest[0]).None?) && x in [120, 88]
    ensures Strtoul([48, x] + Hex4(v) + rest, word) == (v, 6)
  {
    PrintedNumber(v, rest, word);
    HexCharIs(v / 0x1000);
    HexCharIs(v / 0x100 % 16);
    assert Prefix(Hex4(v) + rest) == 0;
    var t := Hex4(v) + rest;
    var s := [48, x] + Hex4(v) + rest;
    assert s[2..] == t && t[0..] == t && Prefix(s) == 2;
    hide Digits, HexValue, Prefix, Hex4;
  }

  /** VID:PID:flags */
  function Printed(vid: nat, pid: nat, flags: Text): Text
    requires vid < 0x1_0000 && pid < 0x1_0000
  {
    Hex4(vid) + [COLON] + Hex4(pid) + [COLON] + flags
  }

  lemma ColonIsNoDigit()
    ensures HexDigit(COLON).None?
  {
  }

  lemma PrintedEntry(v: nat, p: nat, flags: Text, vid: nat, pid: nat, word: nat)
    requires v < 0x1_0000 && p < 0x1_0000 <= word
    ensures EntryFlags(Printed(v, p, flags), vid, pid, word) == if v == vid && p == pid then Some(flags) else None
  {
    hide Strtoul, Hex4, HexDigit;
    ColonIsNoDigit();
    var e := Printed(v, p, flags);
    var second := Hex4(p) + ([COLON] + flags);
    assert e == Hex4(v) + ([COLON] + second);
    PrintedNumber(v, [COLON] + second, word);
    assert e[4] == COLON && e[5..] == second;
    PrintedNumber(p, [COLON] + flags, word);
    assert second[4] == COLON && second[5..] == flags;
  }

  /** The parameter with one printed entry: the flags its letters name replace the masked ones for the
      device with these two IDs, and for no other. */
  lemma PrintedEntryApplies(fflags: set<Flag>, v: nat, p: nat, flags: Text, vid: nat, pid: nat, word: nat)
    requires v < 0x1_0000 && p < 0x1_0000 <= word && COMMA !in flags
    ensures Adjusted(fflags, Printed(v, p, flags), vid, pid, word)
         == if v == vid && p == pid then fflags - MASK + Named(flags) else fflags
  {
    hide EntryFlags, Named, EntryLen, Printed;
    var e := Printed(v, p, flags);
    PrintedEntry(v, p, flags, vid, pid, word);
    NoCommaPrinted(v, p, flags);
    EntryLenIs(e, |e|);
    assert e[..|e|] == e && Entries(e) == [e];
    assert FirstMatch([e], vid, pid, word) == EntryFlags(e, vid, pid, word);
  }

  lemma NoCommaPrinted(v: nat, p: nat, flags: Text)
    requires v < 0x1_0000 && p < 0x1_0000 && COMMA !in flags
    ensures forall i :: 0 <= i < |Printed(v, p, flags)| ==> Printed(v, p, flags)[i] != COMMA
  {
    NoCommaInHex(v);
    NoCommaInHex(p);
    hide Hex4;
  }

  lemma NoCommaInHex(v: nat)
    requires v < 0x1_0000
    ensures COMMA !in Hex4(v)
  {
    HexCharIs(v / 0x1000);
    HexCharIs(v / 0x100 % 16);
    HexCharIs(v / 0x10 % 16);
    HexCharIs(v % 16);
    hide HexChar;
  }

  // ---------------------------------------------------------------------------------------------
  // The parser
  // ---------------------------------------------------------------------------------------------

  lemma TailOfEntry(s: Text, i: nat)
    requires i < EntryLen(s)
    ensures EntryLen(s[i + 1..]) == EntryLen(s) - (i + 1)
    ensures s[i + 1..][..EntryLen(s) - (i + 1)] == s[..EntryLen(s)][i + 1..]
  {
    EntryLenIs(s[i + 1..], EntryLen(s) - (i + 1));
  }

  /** The test of one entry: p is left somewhere in the entry, at its second colon if it matches. */
  method TryEntry(s: Text, vid: nat, pid: nat, word: nat) returns (matched: bool, p: nat)
    requires word > 0
    ensures p <= EntryLen(s)
    ensures match EntryFlags(s[..EntryLen(s)], vid, pid, word)
            case None => !matched
            case Some(text) => matched && p < EntryLen(s) && s[p + 1..][..EntryLen(s) - (p + 1)] == text
  {
    hide Strtoul;
    ghost var n := EntryLen(s);
    NumberEndsInEntry(s, word);
    var (v, i) := Strtoul(s, word);
    matched, p := false, i;
    assert i <= n;
    if v == vid && i < |s| && s[i] == COLON {
      assert i < n;
      TailOfEntry(s, i);
      NumberEndsInEntry(s[i + 1..], word);
      var (w, j) := Strtoul(s[i + 1..], word);
      p := i + 1 + j;
      if w == pid && p < |s| && s[p] == COLON {
        matched := true;
        TailOfEntry(s, p);
      }
    }
  }

  /** Forward behind the next comma, or to the end */
  method SkipEntry(s: Text, p0: nat) returns (p: nat)
    requires p0 <= EntryLen(s)
    ensures p == Min(EntryLen(s) + 1, |s|)
  {
    p := p0;
    while p < |s|
      invariant p0 <= p <= EntryLen(s)
    {
      p := p + 1;
      if s[p - 1] == COMMA {
        return;
      }
    }
  }

  class UsData {
    var fflags: set<Flag>

    /** The second loop: the flags named from p up to the next comma */
    static method CollectFlags(quirks: Text, p0: nat) returns (f: set<Flag>)
      requires p0 < |quirks|
      ensures var rest := quirks[p0 + 1..];
        f == Named(rest[..EntryLen(rest)])
    {
      hide FlagOf, Named, ToLower;
      ghost var rest := quirks[p0 + 1..];
      ghost var n := EntryLen(rest);
      f := {};
      var p := p0 + 1;
      NamedNone(rest);
      while p < |quirks| && quirks[p] != COMMA
        invariant p0 + 1 <= p <= p0 + 1 + n
        invariant f == Named(rest[..p - p0 - 1])
      {
        var k := p - p0 - 1;
        assert quirks[p] == rest[k] && rest[..k + 1] == rest[..k] + [rest[k]];
        NamedGrows(rest[..k], rest[k]);
        var flag := FlagOf(ToLower(quirks[p]));
        if flag.Some? {
          f := f + {flag.value};
        }
        p := p + 1;
      }
    }

    method AdjustQuirks(quirks: Text, vid: nat, pid: nat, word: nat)
      requires word > 0
      modifies this
      ensures fflags == Adjusted(old(fflags), quirks, vid, pid, word)
    {
      hide EntryFlags, Named, FlagOf, Entries, EntryLen, FirstMatch;
      var p := 0;
      ghost var goal := FirstMatch(Entries(quirks), vid, pid, word);
      assert quirks[0..] == quirks;
      if quirks == [] {
        EmptyEntry(vid, pid, word);
        return;
      }
      while p < |quirks|
        invariant p <= |quirks|
        invariant fflags == old(fflags)
        invariant p < |quirks| ==> goal == FirstMatch(Entries(quirks[p..]), vid, pid, word)
        invariant p == |quirks| ==> goal == None
        decreases |quirks| - p
      {
        ghost var s := quirks[p..];
        FirstOrRest(s, vid, pid, word);
        var matched, i := TryEntry(quirks[p..], vid, pid, word);
        if matched {
          assert quirks[p + i + 1..] == s[i + 1..];
          TailOfEntry(s, i);
          assert goal == Some(s[i + 1..][..EntryLen(s[i + 1..])]);
          var f := CollectFlags(quirks, p + i);
          fflags := fflags - MASK + f;
          return;
        }
        i := SkipEntry(quirks[p..], i);
        assert i < |s| ==> quirks[p + i..] == s[i..];
        p := p + i;
      }
    }
  }

  /** The first entry decides, or the entries behind it; nothing follows a final comma. */
  lemma FirstOrRest(s: Text, vid: nat, pid: nat, word: nat)
    requires word > 0 && s != []
    ensures var n := EntryLen(s);
      FirstMatch(Entries(s), vid, pid, word) ==
        match EntryFlags(s[..n], vid, pid, word)
        case Some(text) => Some(text)
        case None => if n + 1 < |s| then FirstMatch(Entries(s[n + 1..]), vid, pid, word) else None
  {
    hide EntryLen, EntryFlags;
    var n := EntryLen(s);
    if n < |s| {
      EntriesStep(s);
      hide Entries;
      if n + 1 == |s| {
        assert s[n + 1..] == [];
        EmptyEntry(vid, pid, word);
      }
    }
  }

  lemma EmptyEntry(vid: nat, pid: nat, word: nat)
    requires word > 0
    ensures FirstMatch(Entries([]), vid, pid, word) == None
  {
  }
}
