/**
  Headers of cpio entries in the two ASCII formats, and the walk over an archive
  as the RPM reader performs it. A byte is a character here.
 */
module Cpio {
  import opened Wrappers
  import Base16
  import opened Bytes

  datatype CpioEntry = CpioEntry(
    devmajor: nat, devminor: nat, ino: nat, mode: nat, uid: nat, gid: nat, nlink: nat,
    rdevmajor: nat, rdevminor: nat, mtime: nat, namesize: nat, filesize: nat, check: nat)

  const MAGIC_SIZE := 6
  const ODC_MAGIC := "070707"
  const NEWC_MAGIC := "070701"
  const ODC_LENGTH := 70
  const NEWC_LENGTH := 104

  /** The header length behind the magic, or zero. */
  function HeaderLength(magic: string): nat {
    if magic == ODC_MAGIC then ODC_LENGTH else if magic == NEWC_MAGIC then NEWC_LENGTH else 0
  }

  // ---- numbers -----------------------------------------------------------------------

  function OctalDigit(c: char): Option<nat> {
    if '0' <= c <= '7' then Some(c as int - '0' as int) else None
  }

  function HexDigit(c: char): (r: Option<nat>)
    ensures r.Some? ==> r.value < 16
  {
    if Base16.DigitValue(c).Some? then Some(Base16.DigitValue(c).value) else None
  }

  /** The number that a string of digits denotes, as a 32-bit value. */
  function HexNumber(s: string): (r: Option<nat>)
    ensures r.Some? ==> r.value < UNSIGNED_LIMIT
  {
    if s == [] then Some(0)
    else
      var high, d := HexNumber(s[..|s| - 1]), HexDigit(s[|s| - 1]);
      if high.None? || d.None? then None else Some((16 * high.value + d.value) % UNSIGNED_LIMIT)
  }

  function OctalNumber(s: string): (r: Option<nat>)
    ensures r.Some? ==> r.value < UNSIGNED_LIMIT
  {
    if s == [] then Some(0)
    else
      var high, d := OctalNumber(s[..|s| - 1]), OctalDigit(s[|s| - 1]);
      if high.None? || d.None? then None else Some((8 * high.value + d.value) % UNSIGNED_LIMIT)
  }

  function Power16(n: nat): nat { if n == 0 then 1 else 16 * Power16(n - 1) }

  /** `n` in `width` digits. */
  function HexPrinted(n: nat, width: nat): (s: string)
    ensures |s| == width
  {
    if width == 0 then "" else HexPrinted(n / 16, width - 1) + [Base16.Digit(n % 16)]
  }

  lemma {:induction false} HexNumberNext(s: string, n: Base16.Nibble)
    requires HexNumber(s).Some? && 16 * HexNumber(s).value + n < UNSIGNED_LIMIT
    ensures HexNumber(s + [Base16.Digit(n)]) == Some(16 * HexNumber(s).value + n)
  {
    hide Base16.Digit, Base16.DigitValue;
    Base16.DigitInverse(n);
    var t := s + [Base16.Digit(n)];
    assert t[..|t| - 1] == s && t[|t| - 1] == Base16.Digit(n);
  }

  lemma {:induction false} HexRoundTrip(n: nat, width: nat)
    requires n < Power16(width) && width <= 8
    ensures HexNumber(HexPrinted(n, width)) == Some(n)
  {
    hide HexNumber;
    if width == 0 {
      NothingIsZero();
    } else {
      PowerBound(width);
      HexRoundTrip(n / 16, width - 1);
      HexNumberNext(HexPrinted(n / 16, width - 1), n % 16);
    }
  }

  lemma {:induction false} NothingIsZero()
    ensures HexNumber("") == Some(0)
  {
  }

  lemma {:induction false} PowerBound(width: nat)
    requires width <= 8
    ensures Power16(width) <= UNSIGNED_LIMIT
  {
    assert Power16(4) == 0x1_0000;
    assert Power16(8) == UNSIGNED_LIMIT;
    if width < 8 { assert Power16(width) <= Power16(8); }
  }

  function Power8(n: nat): nat { if n == 0 then 1 else 8 * Power8(n - 1) }

  function OctalPrinted(n: nat, width: nat): (s: string)
    ensures |s| == width
  {
    if width == 0 then "" else OctalPrinted(n / 8, width - 1) + [Base16.Digit(n % 8)]
  }

  /** A number that may have lost its high bits, and one more digit. */
  lemma {:induction false} TruncatedNext(n: nat, d: nat)
    ensures (8 * (n % UNSIGNED_LIMIT) + d) % UNSIGNED_LIMIT == (8 * n + d) % UNSIGNED_LIMIT
  {
    var q, low := n / UNSIGNED_LIMIT, n % UNSIGNED_LIMIT;
    assert 8 * n + d == (8 * low + d) + (8 * q) * UNSIGNED_LIMIT;
    MultipleAdded(8 * low + d, 8 * q);
  }

  lemma {:induction false} MultipleAdded(a: nat, k: nat)
    ensures (a + k * UNSIGNED_LIMIT) % UNSIGNED_LIMIT == a % UNSIGNED_LIMIT
  {
    if k > 0 {
      MultipleAdded(a, k - 1);
      var b := a + (k - 1) * UNSIGNED_LIMIT;
      assert a + k * UNSIGNED_LIMIT == b + UNSIGNED_LIMIT;
      assert (b + UNSIGNED_LIMIT) % UNSIGNED_LIMIT == b % UNSIGNED_LIMIT;
    }
  }

  lemma {:induction false} OctalNumberNext(s: string, d: Base16.Nibble)
    requires d < 8 && OctalNumber(s).Some?
    ensures OctalNumber(s + [Base16.Digit(d)]) == Some((8 * OctalNumber(s).value + d) % UNSIGNED_LIMIT)
  {
    OctalDigitInverse(d);
    hide Base16.Digit, OctalDigit;
    var t := s + [Base16.Digit(d)];
    assert t[..|t| - 1] == s && t[|t| - 1] == Base16.Digit(d);
  }

  lemma {:induction false} OctalDigitInverse(d: Base16.Nibble)
    requires d < 8
    ensures OctalDigit(Base16.Digit(d)) == Some(d)
  {
  }

  /** Octal digits are read back modulo 2^32: exactly if and only if the number fits 32 bits. */
  lemma {:induction false} OctalRoundTrip(n: nat, width: nat)
    requires n < Power8(width)
    ensures OctalNumber(OctalPrinted(n, width)) == Some(n % UNSIGNED_LIMIT)
  {
    hide OctalNumber;
    if width == 0 {
      OctalNothing();
    } else {
      OctalRoundTrip(n / 8, width - 1);
      OctalNumberNext(OctalPrinted(n / 8, width - 1), n % 8);
      TruncatedNext(n / 8, n % 8);
      assert 8 * (n / 8) + n % 8 == n;
    }
  }

  lemma {:induction false} OctalNothing()
    ensures OctalNumber("") == Some(0)
  {
  }

  // ---- headers -------------------------------------------------------------------------

  datatype Format = Odc | Newc

  function FieldCount(f: Format): nat { if f.Newc? then 13 else 10 }

  function FormatLength(f: Format): nat { if f.Newc? then NEWC_LENGTH else ODC_LENGTH }

  /** Where field `k` begins: eight digits each, or six but for two fields of eleven. */
  function FieldStart(f: Format, k: nat): nat {
    if f.Newc? then 8 * k
    else if k <= 7 then 6 * k
    else if k == 8 then 53
    else if k == 9 then 59
    else 70
  }

  /** The value of field `k`, if all its characters are digits. */
  function Field(f: Format, buf: string, k: nat): (r: Option<nat>)
    requires |buf| == FormatLength(f) && k < FieldCount(f)
    ensures r.Some? ==> r.value < UNSIGNED_LIMIT
  {
    var text := buf[FieldStart(f, k)..FieldStart(f, k + 1)];
    if f.Newc? then HexNumber(text) else OctalNumber(text)
  }

  predicate Good(f: Format, buf: string, n: nat)
    requires |buf| == FormatLength(f) && n <= FieldCount(f)
  {
    n == 0 || (Good(f, buf, n - 1) && Field(f, buf, n - 1).Some?)
  }

  lemma {:induction false} GoodFields(f: Format, buf: string, n: nat)
    requires |buf| == FormatLength(f) && n <= FieldCount(f)
    ensures Good(f, buf, n) <==> forall k | 0 <= k < n :: Field(f, buf, k).Some?
  {
    if n > 0 { GoodFields(f, buf, n - 1); }
  }

  function FieldName(f: Format, k: nat): string {
    var names := if f.Newc?
      then ["ino", "mode", "uid", "gid", "nlink", "mtime", "filesize", "devmajor", "devminor", "rdevmajor", "rdevminor", "namesize", "check"]
      else ["dev", "ino", "mode", "uid", "gid", "nlink", "rdev", "mtime", "namesize", "filesize"];
    if k < |names| then names[k] else ""
  }

  /** The names under which bad fields are reported. */
  lemma {:induction false} FieldNames()
    ensures FieldName(Newc, 0) == "ino" && FieldName(Newc, 1) == "mode" && FieldName(Newc, 2) == "uid"
    ensures FieldName(Newc, 3) == "gid" && FieldName(Newc, 4) == "nlink" && FieldName(Newc, 5) == "mtime"
    ensures FieldName(Newc, 6) == "filesize" && FieldName(Newc, 7) == "devmajor" && FieldName(Newc, 8) == "devminor"
    ensures FieldName(Newc, 9) == "rdevmajor" && FieldName(Newc, 10) == "rdevminor"
    ensures FieldName(Newc, 11) == "namesize" && FieldName(Newc, 12) == "check"
    ensures FieldName(Odc, 0) == "dev" && FieldName(Odc, 1) == "ino" && FieldName(Odc, 2) == "mode" && FieldName(Odc, 3) == "uid"
    ensures FieldName(Odc, 4) == "gid" && FieldName(Odc, 5) == "nlink" && FieldName(Odc, 6) == "rdev"
    ensures FieldName(Odc, 7) == "mtime" && FieldName(Odc, 8) == "namesize" && FieldName(Odc, 9) == "filesize"
  {
  }

  /** The header that a buffer denotes; the old format has no minor numbers and no check. */
  function HeaderOf(f: Format, buf: string): CpioEntry
    requires |buf| == FormatLength(f) && Good(f, buf, FieldCount(f))
  {
    GoodFields(f, buf, FieldCount(f));
    var v := (k: nat) requires k < FieldCount(f) => Field(f, buf, k).value;
    match f
    case Newc => CpioEntry(v(7), v(8), v(0), v(1), v(2), v(3), v(4), v(9), v(10), v(5), v(11), v(6), v(12))
    case Odc => CpioEntry(v(0), 0, v(1), v(2), v(3), v(4), v(5), v(6), 0, v(7), v(8), v(9), 0)
  }

  function Number(f: Format, text: string): Option<nat> {
    if f.Newc? then HexNumber(text) else OctalNumber(text)
  }

  /** The loops of `read_hex` and `read_octal`. */
  method ReadNumber(f: Format, text: string) returns (r: Option<nat>)
    ensures r == Number(f, text)
  {
    var value, i := 0, 0;
    while i < |text|
      invariant 0 <= i <= |text| && Number(f, text[..i]) == Some(value)
    {
      assert text[..i + 1][..i] == text[..i];
      var d := if f.Newc? then HexDigit(text[i]) else OctalDigit(text[i]);
      if d.None? {
        PrefixBad(f, text, i + 1);
        return None;
      }
      value := if f.Newc? then (16 * value + d.value) % UNSIGNED_LIMIT else (8 * value + d.value) % UNSIGNED_LIMIT;
      i := i + 1;
    }
    assert text[..|text|] == text;
    return Some(value);
  }

  lemma {:induction false} PrefixBad(f: Format, text: string, i: nat)
    requires i <= |text| && Number(f, text[..i]).None?
    ensures Number(f, text).None?
    decreases |text| - i
  {
    if i < |text| {
      assert text[..i + 1][..i] == text[..i];
      PrefixBad(f, text, i + 1);
    } else {
      assert text[..i] == text;
    }
  }

  /** The read pointer before field `k`: null once a field was bad. */
  function PointerAt(f: Format, buf: string, k: nat): (p: Option<nat>)
    requires |buf| == FormatLength(f) && k <= FieldCount(f)
    ensures p.Some? <==> Good(f, buf, k)
  {
    if Good(f, buf, k) then Some(FieldStart(f, k)) else None
  }

  /** One field; `None` is the null pointer that stops all further reading. */
  method ReadField(f: Format, buf: string, k: nat, p: Option<nat>, error: string)
    returns (next: Option<nat>, value: nat, newError: string)
    requires |buf| == FormatLength(f) && k < FieldCount(f)
    requires p == PointerAt(f, buf, k)
    ensures next == PointerAt(f, buf, k + 1)
    ensures next.Some? ==> Field(f, buf, k) == Some(value)
    ensures newError == if p.Some? && next.None? then FieldName(f, k) else error
  {
    hide HexNumber, OctalNumber, FieldName;
    if p.None? { return None, 0, error; }
    var number := ReadNumber(f, buf[p.value..FieldStart(f, k + 1)]);
    if number.None? { return None, 0, FieldName(f, k); }
    return Some(FieldStart(f, k + 1)), number.value, error;
  }

  /** The header, or the name of the first field that is not a number. */
  method Parse(f: Format, buf: string) returns (r: Result<CpioEntry, string>)
    requires |buf| == FormatLength(f)
    ensures r.Ok? <==> Good(f, buf, FieldCount(f))
    ensures r.Ok? ==> r.value == HeaderOf(f, buf)
    ensures r.Err? ==> exists k: nat :: k < FieldCount(f) && Good(f, buf, k) && Field(f, buf, k).None? && r.error == FieldName(f, k)
  {
    if f.Newc? { r := ParseNewc(buf); } else { r := ParseOdc(buf); }
  }

  /** The exception's text: the first bad field among the first `n`. */
  ghost predicate Reported(f: Format, buf: string, n: nat, error: string)
    requires |buf| == FormatLength(f) && n <= FieldCount(f)
  {
    !Good(f, buf, n) ==> exists k: nat :: k < n && Good(f, buf, k) && Field(f, buf, k).None? && error == FieldName(f, k)
  }

  lemma {:induction false} ReportedNext(f: Format, buf: string, k: nat, before: string, after: string)
    requires |buf| == FormatLength(f) && k < FieldCount(f) && Reported(f, buf, k, before)
    requires after == if Good(f, buf, k) && !Good(f, buf, k + 1) then FieldName(f, k) else before
    ensures Reported(f, buf, k + 1, after)
  {
    if !Good(f, buf, k) {
      var j: nat :| j < k && Good(f, buf, j) && Field(f, buf, j).None? && before == FieldName(f, j);
    }
  }

  /** One more field of a sequence of calls. */
  method NextField(f: Format, buf: string, k: nat, p: Option<nat>, error: string)
    returns (next: Option<nat>, value: nat, newError: string)
    requires |buf| == FormatLength(f) && k < FieldCount(f) && Reported(f, buf, k, error)
    requires p == PointerAt(f, buf, k)
    ensures next == PointerAt(f, buf, k + 1)
    ensures Good(f, buf, FieldCount(f)) ==> Field(f, buf, k) == Some(value)
    ensures Reported(f, buf, k + 1, newError)
  {
    GoodFields(f, buf, k + 1);
    GoodFields(f, buf, FieldCount(f));
    next, value, newError := ReadField(f, buf, k, p, error);
    ReportedNext(f, buf, k, error, newError);
  }

  /** The first seven fields. */
  method ReadNewcFront(buf: string)
    returns (p: Option<nat>, error: string,
             ino: nat, mode: nat, uid: nat, gid: nat, nlink: nat, mtime: nat, filesize: nat)
    requires |buf| == NEWC_LENGTH
    ensures p == PointerAt(Newc, buf, 7) && Reported(Newc, buf, 7, error)
    ensures Good(Newc, buf, 13) ==>
              && Field(Newc, buf, 0) == Some(ino) && Field(Newc, buf, 1) == Some(mode) && Field(Newc, buf, 2) == Some(uid)
              && Field(Newc, buf, 3) == Some(gid) && Field(Newc, buf, 4) == Some(nlink)
              && Field(Newc, buf, 5) == Some(mtime) && Field(Newc, buf, 6) == Some(filesize)
  {
    StartGood(Newc, buf);
    hide Good, Field, Reported, FieldName, PointerAt, FieldStart;
    var p1, e1;
    p1, ino, e1 := NextField(Newc, buf, 0, Some(0), "");
    p1, mode, e1 := NextField(Newc, buf, 1, p1, e1);
    p1, uid, e1 := NextField(Newc, buf, 2, p1, e1);
    p1, gid, e1 := NextField(Newc, buf, 3, p1, e1);
    p1, nlink, e1 := NextField(Newc, buf, 4, p1, e1);
    p1, mtime, e1 := NextField(Newc, buf, 5, p1, e1);
    p, filesize, error := NextField(Newc, buf, 6, p1, e1);
  }

  /** The other six. */
  method ReadNewcBack(buf: string, front: Option<nat>, before: string)
    returns (p: Option<nat>, error: string,
             devmajor: nat, devminor: nat, rdevmajor: nat, rdevminor: nat, namesize: nat, check: nat)
    requires |buf| == NEWC_LENGTH && front == PointerAt(Newc, buf, 7) && Reported(Newc, buf, 7, before)
    ensures p == PointerAt(Newc, buf, 13) && Reported(Newc, buf, 13, error)
    ensures Good(Newc, buf, 13) ==>
              && Field(Newc, buf, 7) == Some(devmajor) && Field(Newc, buf, 8) == Some(devminor)
              && Field(Newc, buf, 9) == Some(rdevmajor) && Field(Newc, buf, 10) == Some(rdevminor)
              && Field(Newc, buf, 11) == Some(namesize) && Field(Newc, buf, 12) == Some(check)
  {
    hide Good, Field, Reported, FieldName, PointerAt, FieldStart;
    var p1, e1;
    p1, devmajor, e1 := NextField(Newc, buf, 7, front, before);
    p1, devminor, e1 := NextField(Newc, buf, 8, p1, e1);
    p1, rdevmajor, e1 := NextField(Newc, buf, 9, p1, e1);
    p1, rdevminor, e1 := NextField(Newc, buf, 10, p1, e1);
    p1, namesize, e1 := NextField(Newc, buf, 11, p1, e1);
    p, check, error := NextField(Newc, buf, 12, p1, e1);
  }

  method ParseNewc(buf: string) returns (r: Result<CpioEntry, string>)
    requires |buf| == NEWC_LENGTH
    ensures r.Ok? <==> Good(Newc, buf, 13)
    ensures r.Ok? ==> r.value == HeaderOf(Newc, buf)
    ensures r.Err? ==> Reported(Newc, buf, 13, r.error)
  {
    hide Good, Field, Reported, FieldName, HeaderOf, PointerAt, FieldStart;
    var front, before, ino, mode, uid, gid, nlink, mtime, filesize := ReadNewcFront(buf);
    var p, error, devmajor, devminor, rdevmajor, rdevminor, namesize, check := ReadNewcBack(buf, front, before);
    if p.None? { return Err(error); }
    HeaderFields(Newc, buf);
    return Ok(CpioEntry(devmajor, devminor, ino, mode, uid, gid, nlink, rdevmajor, rdevminor, mtime, namesize, filesize, check));
  }

  method ParseOdc(buf: string) returns (r: Result<CpioEntry, string>)
    requires |buf| == ODC_LENGTH
    ensures r.Ok? <==> Good(Odc, buf, 10)
    ensures r.Ok? ==> r.value == HeaderOf(Odc, buf)
    ensures r.Err? ==> Reported(Odc, buf, 10, r.error)
  {
    StartGood(Odc, buf);
    hide Good, Field, Reported, FieldName, HeaderOf, PointerAt, FieldStart;
    var p1, dev, e1 := NextField(Odc, buf, 0, Some(0), "");
    var p2, ino, e2 := NextField(Odc, buf, 1, p1, e1);
    var p3, mode, e3 := NextField(Odc, buf, 2, p2, e2);
    var p4, uid, e4 := NextField(Odc, buf, 3, p3, e3);
    var p5, gid, e5 := NextField(Odc, buf, 4, p4, e4);
    var p6, nlink, e6 := NextField(Odc, buf, 5, p5, e5);
    var p7, rdev, e7 := NextField(Odc, buf, 6, p6, e6);
    var p8, mtime, e8 := NextField(Odc, buf, 7, p7, e7);
    var p9, namesize, e9 := NextField(Odc, buf, 8, p8, e8);
    var p10, filesize, e10 := NextField(Odc, buf, 9, p9, e9);
    if p10.None? { return Err(e10); }
    HeaderFields(Odc, buf);
    return Ok(CpioEntry(dev, 0, ino, mode, uid, gid, nlink, rdev, 0, mtime, namesize, filesize, 0));
  }

  lemma {:induction false} StartGood(f: Format, buf: string)
    requires |buf| == FormatLength(f)
    ensures PointerAt(f, buf, 0) == Some(0) && Reported(f, buf, 0, "")
  {
  }

  /** Which field goes where. */
  lemma {:induction false} HeaderFields(f: Format, buf: string)
    requires |buf| == FormatLength(f) && Good(f, buf, FieldCount(f))
    ensures var h := HeaderOf(f, buf);
            match f
            case Newc =>
              && Some(h.ino) == Field(f, buf, 0) && Some(h.mode) == Field(f, buf, 1) && Some(h.uid) == Field(f, buf, 2)
              && Some(h.gid) == Field(f, buf, 3) && Some(h.nlink) == Field(f, buf, 4) && Some(h.mtime) == Field(f, buf, 5)
              && Some(h.filesize) == Field(f, buf, 6) && Some(h.devmajor) == Field(f, buf, 7) && Some(h.devminor) == Field(f, buf, 8)
              && Some(h.rdevmajor) == Field(f, buf, 9) && Some(h.rdevminor) == Field(f, buf, 10)
              && Some(h.namesize) == Field(f, buf, 11) && Some(h.check) == Field(f, buf, 12)
            case Odc =>
              && Some(h.devmajor) == Field(f, buf, 0) && Some(h.ino) == Field(f, buf, 1) && Some(h.mode) == Field(f, buf, 2)
              && Some(h.uid) == Field(f, buf, 3) && Some(h.gid) == Field(f, buf, 4) && Some(h.nlink) == Field(f, buf, 5)
              && Some(h.rdevmajor) == Field(f, buf, 6) && Some(h.mtime) == Field(f, buf, 7)
              && Some(h.namesize) == Field(f, buf, 8) && Some(h.filesize) == Field(f, buf, 9)
              && h.devminor == 0 && h.rdevminor == 0 && h.check == 0
  {
    GoodFields(f, buf, FieldCount(f));
    hide Good, Field;
  }

  // ---- round trip ------------------------------------------------------------------------

  /** The fields in the order of the format. */
  function FieldsOf(f: Format, h: CpioEntry): (v: seq<nat>)
    ensures |v| == FieldCount(f)
  {
    match f
    case Newc =>
      [h.ino, h.mode, h.uid, h.gid, h.nlink, h.mtime, h.filesize, h.devmajor, h.devminor, h.rdevmajor, h.rdevminor, h.namesize, h.check]
    case Odc =>
      [h.devmajor, h.ino, h.mode, h.uid, h.gid, h.nlink, h.rdevmajor, h.mtime, h.namesize, h.filesize]
  }

  /** Eight hexadecimal digits, or six octal ones but eleven for the time and the size. */
  function PrintedNumber(f: Format, k: nat, n: nat): string {
    match f
    case Newc => HexPrinted(n, 8)
    case Odc => OctalPrinted(n, if k == 7 || k == 9 then 11 else 6)
  }

  /** The new format has 32 bits for everything; the old one 18 for most, and no minor numbers and no check. */
  predicate Fits(f: Format, h: CpioEntry) {
    match f
    case Newc => forall k | 0 <= k < 13 :: FieldsOf(f, h)[k] < UNSIGNED_LIMIT
    case Odc =>
      && (forall k | 0 <= k < 10 :: FieldsOf(f, h)[k] < if k == 7 || k == 9 then UNSIGNED_LIMIT else 0x4_0000)
      && h.devminor == 0 && h.rdevminor == 0 && h.check == 0
  }

  function PrintedFields(f: Format, v: seq<nat>, n: nat): (s: string)
    requires n <= |v| == FieldCount(f)
    ensures |s| == FieldStart(f, n)
  {
    if n == 0 then "" else PrintedFields(f, v, n - 1) + PrintedNumber(f, n - 1, v[n - 1])
  }

  lemma {:induction false} PrintedField(f: Format, v: seq<nat>, k: nat, n: nat)
    requires k < n <= |v| == FieldCount(f)
    ensures FieldStart(f, k) <= FieldStart(f, k + 1) <= FieldStart(f, n)
    ensures PrintedFields(f, v, n)[FieldStart(f, k)..FieldStart(f, k + 1)] == PrintedNumber(f, k, v[k])
  {
    hide PrintedNumber;
    var front, last := PrintedFields(f, v, n - 1), PrintedNumber(f, n - 1, v[n - 1]);
    if k < n - 1 {
      PrintedField(f, v, k, n - 1);
      assert (front + last)[FieldStart(f, k)..FieldStart(f, k + 1)] == front[FieldStart(f, k)..FieldStart(f, k + 1)];
    } else {
      assert (front + last)[FieldStart(f, k)..] == last;
    }
  }

  function Printed(f: Format, h: CpioEntry): (s: string)
    ensures |s| == FormatLength(f)
  {
    PrintedFields(f, FieldsOf(f, h), FieldCount(f))
  }

  lemma {:induction false} NumberReadBack(f: Format, k: nat, n: nat)
    requires n < UNSIGNED_LIMIT && (f.Odc? && k != 7 && k != 9 ==> n < 0x4_0000)
    ensures Number(f, PrintedNumber(f, k, n)) == Some(n)
  {
    Powers();
    hide HexNumber, OctalNumber, HexPrinted, OctalPrinted, Power8, Power16;
    if f.Newc? { HexRoundTrip(n, 8); } else { OctalRoundTrip(n, if k == 7 || k == 9 then 11 else 6); }
  }

  /** All fields of either format survive printing and parsing. */
  lemma {:induction false} HeaderRoundTrip(f: Format, h: CpioEntry)
    requires Fits(f, h)
    ensures Good(f, Printed(f, h), FieldCount(f)) && HeaderOf(f, Printed(f, h)) == h
  {
    hide Good, HeaderOf, Number, HexNumber, OctalNumber, FieldStart, PrintedFields, PrintedNumber;
    var v := FieldsOf(f, h);
    forall k: nat | k < FieldCount(f) ensures Field(f, Printed(f, h), k) == Some(v[k]) {
      PrintedField(f, v, k, FieldCount(f));
      NumberReadBack(f, k, v[k]);
      FieldIsNumber(f, Printed(f, h), k);
    }
    GoodFields(f, Printed(f, h), FieldCount(f));
    HeaderFields(f, Printed(f, h));
    hide Field, Printed;
  }

  lemma {:induction false} FieldIsNumber(f: Format, buf: string, k: nat)
    requires |buf| == FormatLength(f) && k < FieldCount(f)
    ensures FieldStart(f, k) <= FieldStart(f, k + 1) <= |buf|
    ensures Field(f, buf, k) == Number(f, buf[FieldStart(f, k)..FieldStart(f, k + 1)])
  {
  }

  lemma {:induction false} Powers()
    ensures Power16(8) == UNSIGNED_LIMIT && Power8(6) == 0x4_0000 && Power8(11) > UNSIGNED_LIMIT
  {
    assert Power16(4) == 0x1_0000;
    assert Power8(3) == 512;
    assert Power8(6) == 0x4_0000;
    assert Power8(9) == 512 * 0x4_0000;
  }
}
