/** LogStream: integer to text conversion in place, and the fixed buffer it writes to. */
module LogStreams {
  import opened Common
  import opened Digits

  const DIGITS := "9876543210123456789"
  const DIGITS_HEX := "0123456789ABCDEF"

  /** `zero[lsd]`, where `zero` points into the middle of DIGITS. */
  function Zero(lsd: int): char
    requires -10 < lsd < 10
  {
    DIGITS[9 + lsd]
  }

  function HexDigit(lsd: nat): char
    requires lsd < 16
  {
    DIGITS_HEX[lsd]
  }

  predicate Is64Bit(v: int) {
    -0x8000_0000_0000_0000 <= v <= 0xFFFF_FFFF_FFFF_FFFF
  }

  function Abs(v: int): nat {
    if v < 0 then -v else v
  }

  /** `zero[lsd]` is the digit of either sign of the remainder. */
  lemma TableExact(lsd: int)
    requires -10 < lsd < 10
    ensures Zero(lsd) == DigitChar(Abs(lsd))
  {
  }

  lemma HexTableExact(lsd: int)
    requires 0 <= lsd < 16
    ensures HexDigit(lsd) == DigitChar(lsd)
  {
  }

  /** C's remainder and quotient by 10 are those of the magnitude, with the sign of the dividend. */
  lemma TruncatedByTen(i: int)
    ensures Abs(TruncMod(i, 10)) == Abs(i) % 10 && Abs(TruncDiv(i, 10)) == Abs(i) / 10
    ensures -10 < TruncMod(i, 10) < 10
  {
  }

  lemma IsReverse(s: string, was: string)
    requires |s| == |was| && forall k | 0 <= k < |s| :: s[k] == was[|s| - 1 - k]
    ensures s == Reverse(was)
  {
    forall k | 0 <= k < |s| ensures s[k] == Reverse(was)[k] {
      ReverseAt(was, k);
    }
  }

  /** std::reverse on buf[lo..hi]. */
  method ReverseRange(buf: array<char>, lo: nat, hi: nat)
    requires lo <= hi <= buf.Length
    modifies buf
    ensures buf[lo..hi] == Reverse(old(buf[lo..hi]))
    ensures buf[..lo] == old(buf[..lo]) && buf[hi..] == old(buf[hi..])
  {
    var i, j := lo, hi;
    while i < j
      invariant lo <= i && j <= hi && i + j == lo + hi && i <= j + 1
      invariant forall k | 0 <= k < buf.Length && (k < lo || k >= hi || i <= k < j) :: buf[k] == old(buf[k])
      invariant forall k | lo <= k < i || j <= k < hi :: buf[k] == old(buf[lo + hi - 1 - k])
    {
      j := j - 1;
      buf[i], buf[j] := buf[j], buf[i];
      i := i + 1;
    }
    ghost var now, was := buf[lo..hi], old(buf[lo..hi]);
    forall k | 0 <= k < |was| ensures now[k] == was[|was| - 1 - k] {
      assert now[k] == buf[lo + k] == old(buf[hi - 1 - k]);
    }
    IsReverse(now, was);
  }

  /** One digit of convert's loop. */
  lemma DigitStep(i: int)
    ensures var rest := TruncDiv(i, 10);
            && -10 < TruncMod(i, 10) < 10
            && Reversed(Abs(i), 10) == [Zero(TruncMod(i, 10))] + (if rest == 0 then [] else Reversed(Abs(rest), 10))
            && (rest != 0 ==> Abs(rest) < Abs(i))
  {
    TruncatedByTen(i);
    TableExact(TruncMod(i, 10));
  }

  /** convertHex's digit. */
  lemma HexDigitStep(i: nat)
    ensures Reversed(i, 16) == [HexDigit(i % 16)] + (if i / 16 == 0 then [] else Reversed(i / 16, 16))
  {
    HexTableExact(i % 16);
  }

  /** Storing one character after buf[lo..p] extends that range and leaves the rest alone. */
  method Store(buf: array<char>, lo: nat, p: nat, c: char)
    requires lo <= p < buf.Length
    modifies buf
    ensures buf[lo..p + 1] == old(buf[lo..p]) + [c]
    ensures buf[..lo] == old(buf[..lo]) && buf[p + 1..] == old(buf[p + 1..])
  {
    buf[p] := c;
  }

  lemma SliceFrom(a: seq<char>, b: seq<char>, p: nat, q: nat)
    requires p <= q <= |a| == |b| && a[p..] == b[p..]
    ensures a[q..] == b[q..]
  {
    assert a[q..] == a[p..][q - p..];
    assert b[q..] == b[p..][q - p..];
  }

  /** The digit loop of convert: least significant first, from buf[start] to buf[p - 1]. */
  method WriteDigits(buf: array<char>, start: nat, value: int) returns (p: nat)
    requires start + |Reversed(Abs(value), 10)| <= buf.Length
    modifies buf
    ensures p == start + |Reversed(Abs(value), 10)| && buf[start..p] == Reversed(Abs(value), 10)
    ensures buf[..start] == old(buf[..start]) && buf[p..] == old(buf[p..])
  {
    hide Reversed, Abs, TruncDiv, TruncMod, Zero;
    var i := value;
    p := start;
    var done := false;
    ghost var was := buf[..];
    while !done
      invariant start <= p <= buf.Length
      invariant buf[..start] == was[..start] && buf[p..] == was[p..]
      invariant Reversed(Abs(value), 10) == buf[start..p] + if done then [] else Reversed(Abs(i), 10)
      decreases !done, Abs(i)
    {
      DigitStep(i);
      ghost var written := buf[start..p];
      ghost var rest := TruncDiv(i, 10);
      assert written + Reversed(Abs(i), 10)
          == written + [Zero(TruncMod(i, 10))] + (if rest == 0 then [] else Reversed(Abs(rest), 10));
      assert |Reversed(Abs(value), 10)| >= |written| + 1;
      SliceFrom(buf[..], was, p, p + 1);
      var lsd := TruncMod(i, 10);
      i := TruncDiv(i, 10);
      Store(buf, start, p, Zero(lsd));
      p := p + 1;
      done := i == 0;
    }
  }

  /** convertHex's digit loop. */
  method WriteHexDigits(buf: array<char>, start: nat, value: nat) returns (p: nat)
    requires start + |Reversed(value, 16)| <= buf.Length
    modifies buf
    ensures p == start + |Reversed(value, 16)| && buf[start..p] == Reversed(value, 16)
    ensures buf[..start] == old(buf[..start]) && buf[p..] == old(buf[p..])
  {
    hide Reversed, HexDigit;
    var i := value;
    p := start;
    var done := false;
    ghost var was := buf[..];
    while !done
      invariant start <= p <= buf.Length
      invariant buf[..start] == was[..start] && buf[p..] == was[p..]
      invariant Reversed(value, 16) == buf[start..p] + if done then [] else Reversed(i, 16)
      decreases !done, i
    {
      HexDigitStep(i);
      ghost var written := buf[start..p];
      assert written + Reversed(i, 16)
          == written + [HexDigit(i % 16)] + (if i / 16 == 0 then [] else Reversed(i / 16, 16));
      assert |Reversed(value, 16)| >= |written| + 1;
      SliceFrom(buf[..], was, p, p + 1);
      var lsd := i % 16;
      i := i / 16;
      Store(buf, start, p, HexDigit(lsd));
      p := p + 1;
      done := i == 0;
    }
  }

  /** The end of both conversions: a NUL after the reversed text, then std::reverse. */
  method Finish(buf: array<char>, start: nat, p: nat, ghost text: string)
    requires start <= p < buf.Length && buf[start..p] == text
    modifies buf
    ensures buf[start..p] == Reverse(text) && buf[p] == '\0'
    ensures buf[..start] == old(buf[..start]) && buf[p + 1..] == old(buf[p + 1..])
  {
    ghost var was := buf[..];
    buf[p] := '\0';
    assert buf[start..p] == text;
    ReverseRange(buf, start, p);
    assert buf[p] == buf[p..][0];
    assert buf[p + 1..] == buf[p..][1..];
  }

  /**
   convert: writes the decimal text of a signed or unsigned integer of up to 64 bits at buf[start..], followed
   by a NUL. The value is never negated, so the least signed value is no exception.
   */
  method Convert(buf: array<char>, start: nat, value: int) returns (len: nat)
    requires Is64Bit(value) && start + 21 <= buf.Length
    modifies buf
    ensures len == |Decimal(value)| <= 20
    ensures buf[start..start + len] == Decimal(value) && buf[start + len] == '\0'
    ensures buf[..start] == old(buf[..start]) && buf[start + len + 1..] == old(buf[start + len + 1..])
  {
    hide Reversed, Reverse;
    ghost var was := buf[..];
    DecimalFits(value);
    DecimalReversed(value);
    ghost var digits := Reversed(Abs(value), 10);
    var p := WriteDigits(buf, start, value);
    if value < 0 {
      SliceFrom(buf[..], was, p, p + 1);
      Store(buf, start, p, '-');
      p := p + 1;
    }
    SliceFrom(buf[..], was, p, p + 1);
    Finish(buf, start, p, if value < 0 then digits + ['-'] else digits);
    len := p - start;
  }

  /** The decimal text is what convert reverses: the digits, then the sign. */
  lemma DecimalReversed(value: int)
    ensures var digits := Reversed(Abs(value), 10);
            Decimal(value) == Reverse(if value < 0 then digits + ['-'] else digits)
            && |Decimal(value)| == |digits| + if value < 0 then 1 else 0
  {
    ReverseSnoc(Reversed(Abs(value), 10), '-');
  }

  method ConvertHex(buf: array<char>, start: nat, value: nat) returns (len: nat)
    requires Is64Bit(value) && start + 17 <= buf.Length
    modifies buf
    ensures len == |Numeral(value, 16)| <= 16
    ensures buf[start..start + len] == Numeral(value, 16) && buf[start + len] == '\0'
    ensures buf[..start] == old(buf[..start]) && buf[start + len + 1..] == old(buf[start + len + 1..])
  {
    hide Reversed, Reverse;
    ghost var was := buf[..];
    HexFits(value);
    var p := WriteHexDigits(buf, start, value);
    SliceFrom(buf[..], was, p, p + 1);
    Finish(buf, start, p, Reversed(value, 16));
    len := p - start;
  }

  // ---------------------------------------------------------------- the fixed buffer and the stream

  const SMALL_BUFFER: nat := 4000
  const MAX_NUMERIC_SIZE: nat := 32

  /** What is streamed: an integer, a pointer, or text; a null C string is text too. */
  datatype Piece = Integer(v: int) | Pointer(p: nat) | Text(s: string) | NullString

  predicate IsPiece(x: Piece) {
    match x
    case Integer(v) => Is64Bit(v)
    case Pointer(p) => Is64Bit(p)
    case _ => true
  }

  function Render(x: Piece): string {
    match x
    case Integer(v) => Decimal(v)
    case Pointer(p) => "0x" + Numeral(p, 16)
    case Text(s) => s
    case NullString => "(null)"
  }

  /** Numbers need 32 bytes free whatever their length; text needs one byte more than its length. */
  predicate Accepts(used: nat, x: Piece) {
    if x.Integer? || x.Pointer? then used + MAX_NUMERIC_SIZE <= SMALL_BUFFER
    else used + |Render(x)| < SMALL_BUFFER
  }

  function Feed(contents: string, x: Piece): string {
    if Accepts(|contents|, x) then contents + Render(x) else contents
  }

  function FeedAll(pieces: seq<Piece>): string {
    if pieces == [] then [] else Feed(FeedAll(pieces[..|pieces| - 1]), pieces[|pieces| - 1])
  }

  /** The pieces that were accepted, in order. */
  function Kept(pieces: seq<Piece>): seq<Piece> {
    if pieces == [] then []
    else
      var before := pieces[..|pieces| - 1];
      var last := pieces[|pieces| - 1];
      Kept(before) + if Accepts(|FeedAll(before)|, last) then [last] else []
  }

  function Concat(pieces: seq<Piece>): string {
    if pieces == [] then [] else Concat(pieces[..|pieces| - 1]) + Render(pieces[|pieces| - 1])
  }

  lemma RenderFits(x: Piece)
    requires IsPiece(x)
    ensures (x.Integer? || x.Pointer?) ==> |Render(x)| <= 20
  {
    match x
    case Integer(v) => DecimalFits(v);
    case Pointer(p) => HexFits(p);
    case _ =>
  }

  /** After any pieces the buffer holds exactly the accepted ones, and at least one byte is free. */
  lemma {:induction false} StreamExact(pieces: seq<Piece>)
    requires forall x | x in pieces :: IsPiece(x)
    ensures FeedAll(pieces) == Concat(Kept(pieces)) && |FeedAll(pieces)| < SMALL_BUFFER
  {
    if pieces != [] {
      var before := pieces[..|pieces| - 1];
      var last := pieces[|pieces| - 1];
      StreamExact(before);
      RenderFits(last);
      if Accepts(|FeedAll(before)|, last) {
        assert Kept(pieces) == Kept(before) + [last];
        assert (Kept(before) + [last])[..|Kept(before)|] == Kept(before);
      } else {
        assert Kept(pieces) == Kept(before);
      }
    }
  }

  /** Decimal digits, after a minus sign if there is one. */
  predicate IsDecimalText(s: string) {
    var digits := if s != [] && s[0] == '-' then s[1..] else s;
    digits != [] && forall k | 0 <= k < |digits| :: '0' <= digits[k] <= '9'
  }

  lemma {:induction false} DecimalDigits(n: nat)
    ensures forall k | 0 <= k < |Numeral(n, 10)| :: '0' <= Numeral(n, 10)[k] <= '9'
    decreases n
  {
    Quotient(n, 10);
    NumeralStep(n, 10);
    if n >= 10 {
      DecimalDigits(n / 10);
    }
  }

  lemma DecimalShape(v: int)
    ensures IsDecimalText(Decimal(v))
  {
    DecimalDigits(Abs(v));
    NumeralShape(Abs(v), 10);
    if v < 0 {
      assert Decimal(v)[1..] == Numeral(Abs(v), 10);
    }
  }

  /**
   What one output leaves behind, said of its argument alone: a string that leaves a byte free is appended as it is, a
   number that finds 32 bytes free appends at most 20 characters that read back as it, and anything else changes
   nothing.
   */
  lemma FeedExactly(contents: string, x: Piece)
    requires IsPiece(x) && |contents| < 4000
    ensures var t := Feed(contents, x);
            var used := |contents|;
            match x
            case Text(s) => t == if used + |s| < 4000 then contents + s else contents
            case NullString => t == if used + 6 < 4000 then contents + "(null)" else contents
            case Integer(v) =>
              if used + 32 <= 4000
              then && contents <= t && |t| <= used + 20
                   && IsDecimalText(t[used..]) && ReadDecimal(t[used..]) == v
              else t == contents
            case Pointer(p) =>
              if used + 32 <= 4000
              then && contents + "0x" <= t && used + 3 <= |t| <= used + 18
                   && ReadNumeral(t[used + 2..], 16) == p
              else t == contents
  {
    hide Numeral, Decimal, ReadDecimal, ReadNumeral, IsDecimalText;
    match x
    case Integer(v) =>
      DecimalFits(v);
      DecimalRead(v);
      DecimalShape(v);
      assert (contents + Decimal(v))[|contents|..] == Decimal(v);
    case Pointer(p) =>
      HexFits(p);
      NumeralRead(p, 16);
      assert contents + ("0x" + Numeral(p, 16)) == (contents + "0x") + Numeral(p, 16);
      assert ((contents + "0x") + Numeral(p, 16))[|contents| + 2..] == Numeral(p, 16);
    case _ =>
  }

  /** The strings one after another. */
  function Joined(texts: seq<string>): string {
    if texts == [] then "" else texts[0] + Joined(texts[1..])
  }

  function AsTexts(texts: seq<string>): seq<Piece> {
    seq(|texts|, i requires 0 <= i < |texts| => Text(texts[i]))
  }

  lemma {:induction false} JoinedSnoc(texts: seq<string>, last: string)
    ensures Joined(texts + [last]) == Joined(texts) + last
  {
    if texts == [] {
      assert [last][1..] == [] && [] + [last] == [last];
    } else {
      assert (texts + [last])[1..] == texts[1..] + [last];
      JoinedSnoc(texts[1..], last);
    }
  }

  /** Strings that fit together come out joined, in the order they were streamed. */
  lemma {:induction false} TextsAreJoined(texts: seq<string>)
    requires |Joined(texts)| < 4000
    ensures FeedAll(AsTexts(texts)) == Joined(texts)
    decreases |texts|
  {
    if texts != [] {
      var before, last := texts[..|texts| - 1], texts[|texts| - 1];
      assert texts == before + [last];
      JoinedSnoc(before, last);
      TextsAreJoined(before);
      assert AsTexts(texts)[..|texts| - 1] == AsTexts(before);
      FeedExactly(Joined(before), Text(last));
    }
  }

  lemma PointerText(all: string, before: string, p: nat, len: nat)
    requires |before| + 2 + len <= |all| && all[..|before| + 2] == before + "0x"
    requires all[|before| + 2..|before| + 2 + len] == Numeral(p, 16)
    ensures all[..|before| + 2 + len] == before + Render(Pointer(p))
  {
    var n := |before| + 2;
    assert all[..n + len] == all[..n] + all[n..n + len];
    assert before + "0x" + Numeral(p, 16) == before + ("0x" + Numeral(p, 16));
  }

  class LogStream {
    const data: array<char>
    var cur: nat

    ghost predicate Valid()
      reads this
    {
      data.Length == SMALL_BUFFER && cur < SMALL_BUFFER
    }

    ghost function Contents(): string
      reads this, data
      requires Valid()
    {
      data[..cur]
    }

    constructor ()
      ensures Valid() && fresh(data) && Contents() == []
    {
      data := new char[SMALL_BUFFER];
      cur := 0;
    }

    function Avail(): int
      reads this
    {
      SMALL_BUFFER - cur
    }

    /** FixedBuffer::append: all of the text or none of it. */
    method Append(s: string)
      requires Valid()
      modifies this, data
      ensures Valid()
      ensures Contents() == if old(cur) + |s| < 4000 then old(Contents()) + s else old(Contents())
    {
      if Avail() > |s| {
        ghost var before := data[..cur];
        forall k | 0 <= k < |s| {
          data[cur + k] := s[k];
        }
        cur := cur + |s|;
        assert data[..cur] == before + s;
      }
    }

    /** formatInteger. */
    method FormatInteger(v: int)
      requires Valid() && Is64Bit(v)
      modifies this, data
      ensures Valid() && Contents() == Feed(old(Contents()), Integer(v))
      ensures Contents() == if old(cur) + 32 <= 4000 then old(Contents()) + Decimal(v) else old(Contents())
    {
      if Avail() >= MAX_NUMERIC_SIZE {
        ghost var before := data[..cur];
        var len := Convert(data, cur, v);
        assert data[..cur + len] == before + Decimal(v);
        cur := cur + len;
      }
    }

    /** buf[0] = '0', buf[1] = 'x'. */
    method WritePrefix()
      requires Valid() && cur + 2 <= data.Length
      modifies data
      ensures data[..cur + 2] == old(Contents()) + "0x"
    {
      Store(data, 0, cur, '0');
      Store(data, 0, cur + 1, 'x');
      assert data[..cur + 2] == data[0..cur + 2] && old(data[..cur]) == old(data[0..cur]);
    }

    /** The pointer output operator. */
    method FormatPointer(p: nat)
      requires Valid() && Is64Bit(p)
      modifies this, data
      ensures Valid() && Contents() == Feed(old(Contents()), Pointer(p))
      ensures Contents() == if old(cur) + 32 <= 4000 then old(Contents()) + ("0x" + Numeral(p, 16)) else old(Contents())
    {
      if Avail() >= MAX_NUMERIC_SIZE {
        ghost var before := Contents();
        WritePrefix();
        var len := ConvertHex(data, cur + 2, p);
        PointerText(data[..], before, p, len);
        cur := cur + (len + 2);
      }
    }

    /** One output operator. */
    method Write(x: Piece)
      requires Valid() && IsPiece(x)
      modifies this, data
      ensures Valid() && Contents() == Feed(old(Contents()), x)
    {
      match x
      case Integer(v) => FormatInteger(v);
      case Pointer(p) => FormatPointer(p);
      case Text(s) => Append(s);
      case NullString => Append("(null)");
    }

    /** A whole chain of outputs, from an empty stream. */
    method WriteAll(pieces: seq<Piece>)
      requires Valid() && Contents() == []
      requires forall x | x in pieces :: IsPiece(x)
      modifies this, data
      ensures Valid() && Contents() == FeedAll(pieces)
    {
      for k := 0 to |pieces|
        invariant Valid() && Contents() == FeedAll(pieces[..k])
      {
        assert pieces[..k + 1][..k] == pieces[..k];
        Write(pieces[k]);
      }
      assert pieces[..|pieces|] == pieces;
    }
  }
}
