/**
 The %F form of a date in utils/date.h: printing it with a fill of zeros, and reading it
 back from an input stream, with the stream's eof and fail bits kept as iostreams keep them.
 */
module DateText {
  import opened MachineInts
  import opened Options
  import opened Civil
  import ParseFields

  // ---------------------------------------------------------------------------
  // Numbers as text
  // ---------------------------------------------------------------------------

  predicate IsDigit(c: char) { '0' <= c <= '9' }

  function DigitOf(n: nat): char
    requires n < 10
  {
    '0' + n as char
  }

  function ValueOf(c: char): nat
    requires IsDigit(c)
  {
    (c - '0') as nat
  }

  /** Decimal digits of a natural number. */
  function Digits(n: nat): string {
    if n < 10 then [DigitOf(n)] else Digits(n / 10) + [DigitOf(n % 10)]
  }

  function Decimal(n: int): string {
    if n < 0 then "-" + Digits(-n) else Digits(n)
  }

  /** An `os.width(width)` with fill '0' and right adjustment: the fill goes before a sign too. */
  function ZeroFill(s: string, width: nat): string
    decreases width - |s|
  {
    if |s| >= width then s else ZeroFill("0" + s, width)
  }

  /** %F */
  function PrintF(d: Date): string {
    ZeroFill(Decimal(d.year), 4) + "-" + ZeroFill(Decimal(d.month), 2) + "-" + ZeroFill(Decimal(d.day), 2)
  }

  /** Value of a run of digits on `unsigned`. */
  function Dec(s: string): uint32
    requires forall i :: 0 <= i < |s| ==> IsDigit(s[i])
  {
    if s == [] then 0 else U32(10 * Dec(s[..|s| - 1]) + ValueOf(s[|s| - 1]))
  }

  /** How many characters from p on are digits, at most `limit` of them. */
  function Run(t: string, p: nat, limit: nat): (n: nat)
    requires p <= |t|
    ensures n <= limit && p + n <= |t|
    ensures forall i :: p <= i < p + n ==> IsDigit(t[i])
    ensures n < limit && p + n < |t| ==> !IsDigit(t[p + n])
    decreases limit
  {
    if limit > 0 && p < |t| && IsDigit(t[p]) then 1 + Run(t, p + 1, limit - 1) else 0
  }

  function DecAt(t: string, p: nat, q: nat): uint32
    requires p <= q <= |t| && forall i :: p <= i < q ==> IsDigit(t[i])
  {
    Dec(t[p..q])
  }

  lemma NoDigits(t: string, p: nat)
    requires p <= |t|
    ensures DecAt(t, p, p) == 0
  {
  }

  lemma DecGrows(t: string, p: nat, q: nat)
    requires p < q <= |t| && forall i :: p <= i < q ==> IsDigit(t[i])
    ensures DecAt(t, p, q) == U32(10 * DecAt(t, p, q - 1) + ValueOf(t[q - 1]))
  {
    assert t[p..q][..q - p - 1] == t[p..q - 1];
  }

  /** read_unsigned() compares its count with M after a digit, so that M = 0 never stops it. */
  function Limit(t: string, M: uint32): nat {
    if M == 0 then |t| + 1 else M
  }

  // ---------------------------------------------------------------------------
  // What reading yields, by position
  // ---------------------------------------------------------------------------

  /** A failed read, or a value, the position after it, and whether the end was met. */
  datatype Read = Failed | Got(value: int, next: nat, eof: bool)

  function UnsignedAt(t: string, p: nat, m: uint32, M: uint32): Read
    requires p <= |t|
  {
    var n := Run(t, p, Limit(t, M));
    if n < m then Failed else Got(DecAt(t, p, p + n), p + n, p + n == |t| && n < Limit(t, M))
  }

  function SignedAt(t: string, p: nat, m: uint32, M: uint32): Read
    requires p <= |t| && m > 0
  {
    if p < |t| && IsDigit(t[p]) then
      match UnsignedAt(t, p, m, M)
      case Failed => Failed
      case Got(x, next, eof) => Got(I32(x), next, eof)
    else if p < |t| && (t[p] == '-' || t[p] == '+') then
      match UnsignedAt(t, p + 1, m, U32(M - 1))
      case Failed => Failed
      case Got(x, next, eof) => Got(if t[p] == '-' then I32(0 - I32(x)) else I32(x), next, eof)
    else Failed
  }

  /** A literal character after a read that met the end or not. */
  predicate CharAt(t: string, p: nat, eof: bool, c: char) {
    !eof && p < |t| && t[p] == c
  }

  /** The three numbers that %F reads at the start of a text, and the position after them. */
  datatype FullDate = NoDate | Ymd(Y: int, m: int, d: int, next: nat)

  function FullDateAt(t: string, p: nat): FullDate
    requires p <= |t|
  {
    var y := SignedAt(t, p, 1, 4);
    if y.Failed? || !CharAt(t, y.next, y.eof, '-') then NoDate else
    var m := UnsignedAt(t, y.next + 1, 1, 2);
    if m.Failed? || !CharAt(t, m.next, m.eof, '-') then NoDate else
    var d := UnsignedAt(t, m.next + 1, 1, 2);
    if d.Failed? then NoDate else Ymd(y.value, m.value, d.value, d.next)
  }

  /** The date that from_stream() stores for "%F", if the stream has not failed. */
  function ParsedDate(f: FullDate): Option<Date> {
    if f.NoDate? then None else
    var r := ParseFields.Resolve(ParseFields.NOTHING.(Y := f.Y, m := f.m, d := f.d));
    if r.Some? && Ok(r.value.0) then Some(r.value.0) else None
  }

  // ---------------------------------------------------------------------------
  // The same from the characters alone
  // ---------------------------------------------------------------------------

  predicate AllDigits(t: string, p: nat, q: nat)
    requires p <= q <= |t|
  {
    forall i :: p <= i < q ==> '0' <= t[i] <= '9'
  }

  /** The number that a run of digits spells, of any length. */
  function NumberOf(t: string, p: nat, q: nat): nat
    requires p <= q <= |t| && AllDigits(t, p, q)
    decreases q
  {
    if p == q then 0 else 10 * NumberOf(t, p, q - 1) + (t[q - 1] - '0') as nat
  }

  /** Digits are added up on `unsigned`. */
  lemma {:induction false} DecIsNumber(t: string, p: nat, q: nat)
    requires p <= q <= |t| && AllDigits(t, p, q)
    ensures DecAt(t, p, q) == NumberOf(t, p, q) % 0x1_0000_0000
    decreases q
  {
    if p < q {
      hide DecAt;
      DecIsNumber(t, p, q - 1);
      DecGrows(t, p, q);
      TimesTen(NumberOf(t, p, q - 1), ValueOf(t[q - 1]));
    }
  }

  lemma TimesTen(n: nat, c: nat)
    ensures U32(10 * (n % 0x1_0000_0000) + c) == (10 * n + c) % 0x1_0000_0000
  {
    var k, r := n / 0x1_0000_0000, n % 0x1_0000_0000;
    assert 10 * n + c == (10 * r + c) + 0x1_0000_0000 * (10 * k);
  }

  lemma RunIs(t: string, p: nat, limit: nat, n: nat)
    requires p + n <= |t| && n <= limit && AllDigits(t, p, p + n)
    requires n < limit && p + n < |t| ==> !('0' <= t[p + n] <= '9')
    ensures Run(t, p, limit) == n
  {
  }

  /** What read_unsigned() reads ends before the first character that is no digit, or after M, and is the number that
      the digits spell, on 32 bits; it fails exactly if there are fewer than m. */
  lemma UnsignedExactly(t: string, p: nat, m: uint32, M: uint32, q: nat)
    requires p <= q <= |t| && AllDigits(t, p, q) && (M == 0 || q <= p + M)
    requires q < |t| && (M == 0 || q < p + M) ==> !('0' <= t[q] <= '9')
    ensures UnsignedAt(t, p, m, M)
            == if q < p + m then Failed
               else Got(NumberOf(t, p, q) % 0x1_0000_0000, q, q == |t| && (M == 0 || q < p + M))
  {
    hide DecAt, NumberOf;
    RunIs(t, p, Limit(t, M), q - p);
    DecIsNumber(t, p, q);
  }

  function AfterSign(t: string, p: nat): nat
    requires p < |t|
  {
    if t[p] == '-' || t[p] == '+' then p + 1 else p
  }

  /** What read_signed() reads: the sign counts against the width. */
  lemma SignedExactly(t: string, p: nat, m: uint32, M: uint32, q: nat)
    requires p < |t| && m > 0 && (t[p] == '-' || t[p] == '+' || '0' <= t[p] <= '9')
    requires AfterSign(t, p) <= q <= |t| && AllDigits(t, AfterSign(t, p), q)
    requires var s, width := AfterSign(t, p), if AfterSign(t, p) == p then M else U32(M - 1);
             && (width == 0 || q <= s + width)
             && (q < |t| && (width == 0 || q < s + width) ==> !('0' <= t[q] <= '9'))
    ensures var s, width := AfterSign(t, p), if AfterSign(t, p) == p then M else U32(M - 1);
            var x := I32(NumberOf(t, s, q) % 0x1_0000_0000);
            SignedAt(t, p, m, M)
            == if q < s + m then Failed
               else Got(if t[p] == '-' then I32(0 - x) else x, q, q == |t| && (width == 0 || q < s + width))
  {
    hide UnsignedAt, NumberOf;
    UnsignedExactly(t, AfterSign(t, p), m, if AfterSign(t, p) == p then M else U32(M - 1), q);
  }

  /** A width of one is used up by a sign, and what is left, none, is no limit: all digits after it are read. */
  lemma WidthOneAfterSign(t: string, p: nat, q: nat)
    requires p + 1 < q <= |t| && (t[p] == '-' || t[p] == '+') && AllDigits(t, p + 1, q)
    requires q < |t| ==> !('0' <= t[q] <= '9')
    ensures SignedAt(t, p, 1, 1).Got? && SignedAt(t, p, 1, 1).next == q
  {
    hide SignedAt, NumberOf;
    SignedExactly(t, p, 1, 1, q);
  }

  lemma {:induction false} NumberBound(t: string, p: nat, q: nat)
    requires p <= q <= |t| && AllDigits(t, p, q) && q - p <= 4
    ensures q - p <= 2 ==> NumberOf(t, p, q) <= 99
    ensures q - p <= 3 ==> NumberOf(t, p, q) <= 999
    ensures NumberOf(t, p, q) <= 9999
    decreases q
  {
    if p < q {
      NumberBound(t, p, q - 1);
      if p < q - 1 {
        NumberBound(t, p, q - 2);
      }
    }
  }

  function SignedNumberOf(t: string, p: nat, q: nat): int
    requires p < |t| && AfterSign(t, p) <= q <= |t| && AllDigits(t, AfterSign(t, p), q)
  {
    var n: int := NumberOf(t, AfterSign(t, p), q);
    if t[p] == '-' then -n else n
  }

  /** From p to q stands: an optional sign and digits, four characters at most; a dash at a; one or two digits; a dash
      at b; two digits, or one that no digit follows. */
  predicate SpellsDate(t: string, p: nat, a: nat, b: nat, q: nat) {
    && p < a < b < q <= |t| && AfterSign(t, p) < a <= p + 4 && a + 2 <= b <= a + 3 && b + 2 <= q <= b + 3
    && AllDigits(t, AfterSign(t, p), a) && t[a] == '-' && AllDigits(t, a + 1, b) && t[b] == '-'
    && AllDigits(t, b + 1, q)
    && (q == b + 2 && q < |t| ==> !('0' <= t[q] <= '9'))
  }

  /** The date with the three numbers that stand there */
  predicate SpellsThe(d: Date, t: string, p: nat, a: nat, b: nat, q: nat) {
    && SpellsDate(t, p, a, b, q)
    && d.year == SignedNumberOf(t, p, a)
    && d.month == NumberOf(t, a + 1, b) && d.day == NumberOf(t, b + 1, q)
  }

  // ---------------------------------------------------------------------------
  // The stream and the reading methods
  // ---------------------------------------------------------------------------

  class InStream {
    const text: string
    var pos: nat
    var eof: bool
    var fail: bool

    ghost predicate Valid()
      reads this
    {
      pos <= |text|
    }

    predicate Good()
      reads this
    {
      !eof && !fail
    }

    constructor (text: string)
      ensures Valid() && Good() && pos == 0 && this.text == text
    {
      this.text := text;
      pos, eof, fail := 0, false, false;
    }

    /** basic_istream::peek() */
    method Peek() returns (c: Option<char>)
      requires Valid()
      modifies this`eof, this`fail
      ensures Valid()
      ensures !old(Good()) ==> c == None && fail && eof == old(eof)
      ensures old(Good()) ==> !fail && eof == (pos == |text|)
      ensures old(Good()) ==> c == if pos == |text| then None else Some(text[pos])
    {
      if eof || fail {
        fail := true;
        return None;
      }
      if pos == |text| {
        eof := true;
        return None;
      }
      return Some(text[pos]);
    }

    /** basic_istream::get() after a peek() that found a character */
    method Get()
      requires Valid() && Good() && pos < |text|
      modifies this`pos
      ensures Valid() && pos == old(pos) + 1
    {
      pos := pos + 1;
    }

    /** The loop of detail::read_unsigned: digits up to the first other character, or M of them */
    method ReadDigits(M: uint32) returns (count: nat, x: uint32)
      requires Valid()
      modifies this
      ensures Valid() && pos == old(pos) + count
      ensures !old(Good()) ==> count == 0 && x == 0 && !Good() && fail && eof == old(eof)
      ensures old(Good()) ==> !fail && count == Run(text, old(pos), Limit(text, M)) && x == DecAt(text, old(pos), pos)
      ensures old(Good()) ==> eof == (pos == |text| && count < Limit(text, M))
    {
      count, x := 0, 0;
      hide DecAt, U32, IsDigit, ValueOf;
      ghost var p, n := pos, Run(text, pos, Limit(text, M));
      ghost var good := Good();
      var going := true;
      while going
        invariant Valid() && p + count == pos <= p + n
        invariant x == DecAt(text, p, pos)
        invariant !good ==> count == 0 && eof == old(eof) && !Good() && (going || fail)
        invariant good && going ==> Good() && (M == 0 || count < M)
        invariant good && !going ==> count == n && !fail && eof == (p + n == |text| && n < Limit(text, M))
        decreases going, |text| - pos
      {
        var ic := Peek();
        if ic.None? || !IsDigit(ic.value) {
          going := false;
        } else {
          Get();
          DecGrows(text, p, pos);
          count := count + 1;
          x := U32(10 * x + ValueOf(ic.value));
          going := count != M;
        }
      }
      NoDigits(text, p);
    }

    /** detail::read_unsigned */
    method ReadUnsigned(m: uint32, M: uint32) returns (x: uint32)
      requires Valid()
      modifies this
      ensures Valid()
      ensures !old(Good()) ==> x == 0 && pos == old(pos) && fail && eof == old(eof)
      ensures old(Good()) ==>
                match UnsignedAt(text, old(pos), m, M)
                case Failed => fail
                case Got(value, next, end) => !fail && x == value && pos == next && eof == end
      ensures old(Good()) ==>
                var n := Run(text, old(pos), Limit(text, M));
                pos == old(pos) + n && (eof <==> pos == |text| && n < Limit(text, M))
    {
      hide DecAt;
      var count;
      count, x := ReadDigits(M);
      if count < m {
        fail := true;
      }
    }

    /** detail::read_signed, which counts a sign against the digits allowed */
    method ReadSigned(m: uint32, M: uint32) returns (x: int)
      requires Valid() && m > 0
      modifies this
      ensures Valid()
      ensures !old(Good()) ==> fail
      ensures fail ==> x == 0
      ensures old(Good()) ==>
                match SignedAt(text, old(pos), m, M)
                case Failed => fail
                case Got(value, next, end) => !fail && x == value && pos == next && eof == end
    {
      hide UnsignedAt;
      var ic := Peek();
      if ic.Some? {
        var c := ic.value;
        if IsDigit(c) || c == '-' || c == '+' {
          var width := M;
          if c == '-' || c == '+' {
            Get();
            width := U32(M - 1);
          }
          var u := ReadUnsigned(if m > 1 then m else 1, width);
          x := I32(u);
          if !fail {
            if c == '-' {
              x := I32(0 - x);
            }
            return;
          }
        }
      }
      fail := true;
      x := 0;
    }

    /** read() of a literal character */
    method ReadChar(c: char)
      requires Valid()
      modifies this
      ensures Valid()
      ensures if old(Good()) && old(pos) < |text| && text[old(pos)] == c then Good() && pos == old(pos) + 1
              else fail && pos == old(pos)
      ensures old(Good()) ==> (eof <==> old(pos) == |text|)
    {
      var ic := Peek();
      if ic.None? {
        eof, fail := true, true;
        return;
      }
      if ic.value != c {
        fail := true;
        return;
      }
      Get();
    }

    /** read(is, rs{tY, 1, 4}, '-', ru{tn, 1, 2}, '-', ru{td, 1, 2}), stopping at the first failure */
    method ReadFullDate() returns (tY: int, tn: int, td: int)
      requires Valid()
      modifies this
      ensures Valid()
      ensures !old(Good()) ==> fail
      ensures old(Good()) ==>
                match FullDateAt(text, old(pos))
                case NoDate => fail
                case Ymd(y, m, d, next) => !fail && tY == y && tn == m && td == d && pos == next
    {
      hide UnsignedAt, SignedAt;
      tY, tn, td := ParseFields.NO_YEAR, ParseFields.NO_MONTH, ParseFields.NO_DAY;
      var y := ReadSigned(1, 4);
      if fail { return; }
      tY := y;
      ReadChar('-');
      if fail { return; }
      var m := ReadUnsigned(1, 2);
      if fail { return; }
      tn := m;
      ReadChar('-');
      if fail { return; }
      var d := ReadUnsigned(1, 2);
      if fail { return; }
      td := d;
    }

    /** from_stream(is, "%F", ymd): the date, or the failed stream, on a stream that was good */
    method ParseF() returns (ymd: Option<Date>)
      requires Valid() && Good()
      modifies this
      ensures Valid()
      ensures ymd == ParsedDate(FullDateAt(text, old(pos)))
      ensures ymd.None? == fail
      ensures ymd.Some? ==> pos == FullDateAt(text, old(pos)).next
      ensures ymd.Some? ==> Ok(ymd.value) && exists a: nat, b: nat :: SpellsThe(ymd.value, text, old(pos), a, b, pos)
      ensures ymd.None? ==> forall d: Date, a: nat, b: nat, q: nat :: Ok(d) ==> !SpellsThe(d, text, old(pos), a, b, q)
    {
      ParsedExactly(text, pos);
      hide SpellsThe, FullDateAt;
      var Y, m, d := ReadFullDate();
      if fail {
        return None;
      }
      var r := ParseFields.Resolve(ParseFields.NOTHING.(Y := Y, m := m, d := d));
      if r.None? || !Ok(r.value.0) {
        fail := true;
        return None;
      }
      ymd := Some(r.value.0);
    }
  }

  // ---------------------------------------------------------------------------
  // Which texts are read
  // ---------------------------------------------------------------------------

  /** A run of digits is read as its number. */
  lemma UnsignedIs(t: string, p: nat, m: uint32, M: uint32, n: nat)
    requires p + n <= |t| && m <= n <= M <= 4 && m > 0 && AllDigits(t, p, p + n)
    requires n < M && p + n < |t| ==> !('0' <= t[p + n] <= '9')
    ensures UnsignedAt(t, p, m, M) == Got(NumberOf(t, p, p + n), p + n, p + n == |t| && n < M)
    ensures NumberOf(t, p, p + n) <= 9999
  {
    hide UnsignedAt;
    UnsignedExactly(t, p, m, M, p + n);
    NumberBound(t, p, p + n);
  }

  /** What is read as a number is a run of digits. */
  lemma UnsignedTells(t: string, p: nat, M: uint32)
    requires p <= |t| && 1 <= M <= 4 && UnsignedAt(t, p, 1, M).Got?
    ensures var r := UnsignedAt(t, p, 1, M);
            && p < r.next <= |t| && r.next <= p + M && AllDigits(t, p, r.next)
            && r.value == NumberOf(t, p, r.next) && (r.eof <==> r.next == |t| && r.next < p + M)
            && (r.next < p + M && r.next < |t| ==> !('0' <= t[r.next] <= '9'))
  {
    var n := Run(t, p, M);
    UnsignedIs(t, p, 1, M, n);
  }

  lemma SignedTells(t: string, p: nat)
    requires p <= |t| && SignedAt(t, p, 1, 4).Got?
    ensures var r := SignedAt(t, p, 1, 4);
            && p < |t| && AfterSign(t, p) < r.next <= |t| && r.next <= p + 4 && AllDigits(t, AfterSign(t, p), r.next)
            && r.value == SignedNumberOf(t, p, r.next)
  {
    hide UnsignedAt, NumberOf;
    if IsDigit(t[p]) {
      UnsignedTells(t, p, 4);
      NumberBound(t, p, UnsignedAt(t, p, 1, 4).next);
    } else {
      UnsignedTells(t, p + 1, 3);
      NumberBound(t, p + 1, UnsignedAt(t, p + 1, 1, 3).next);
    }
  }

  lemma SignedIs(t: string, p: nat, a: nat)
    requires p < |t| && AfterSign(t, p) < a < |t| && a <= p + 4 && AllDigits(t, AfterSign(t, p), a) && t[a] == '-'
    ensures SignedAt(t, p, 1, 4) == Got(SignedNumberOf(t, p, a), a, false)
  {
    hide UnsignedAt, NumberOf;
    var s := AfterSign(t, p);
    UnsignedIs(t, s, 1, if s == p then 4 else 3, a - s);
  }

  /** A date that is spelt is read, with its numbers. */
  lemma SpeltIsRead(t: string, p: nat, a: nat, b: nat, q: nat)
    requires SpellsDate(t, p, a, b, q)
    ensures FullDateAt(t, p)
            == Ymd(SignedNumberOf(t, p, a), NumberOf(t, a + 1, b), NumberOf(t, b + 1, q), q)
  {
    hide UnsignedAt, SignedAt, NumberOf;
    SignedIs(t, p, a);
    UnsignedIs(t, a + 1, 1, 2, b - a - 1);
    UnsignedIs(t, b + 1, 1, 2, q - b - 1);
  }

  /** Nothing else is. */
  lemma ReadIsSpelt(t: string, p: nat) returns (a: nat, b: nat)
    requires p <= |t| && FullDateAt(t, p).Ymd?
    ensures SpellsDate(t, p, a, b, FullDateAt(t, p).next)
  {
    hide UnsignedAt, SignedAt, NumberOf;
    SignedTells(t, p);
    a := SignedAt(t, p, 1, 4).next;
    UnsignedTells(t, a + 1, 2);
    b := UnsignedAt(t, a + 1, 1, 2).next;
    UnsignedTells(t, b + 1, 2);
  }

  /** Three numbers of few digits make the date they name, if there is one. */
  lemma NumbersMakeDate(y: int, m: nat, d: nat, next: nat)
    requires -9999 <= y <= 9999 && m <= 99 && d <= 99
    ensures ParsedDate(Ymd(y, m, d, next)) == if Ok(Date(y, m, d)) then Some(Date(y, m, d)) else None
  {
    if Ok(Date(y, m, d)) {
      OwnDateAgrees(Date(y, m, d));
      hide ParseFields.Resolve;
      ParseFields.ResolveFindsDate(ParseFields.NOTHING.(Y := y, m := m, d := d), Date(y, m, d));
    }
  }

  /** The text yields a date exactly if it spells one, with a sign or without, and dashes between the numbers. */
  lemma ParsedExactly(t: string, p: nat)
    requires p <= |t|
    ensures var f := FullDateAt(t, p);
            && (ParsedDate(f).Some? ==> && Ok(ParsedDate(f).value)
                                        && exists a: nat, b: nat :: SpellsThe(ParsedDate(f).value, t, p, a, b, f.next))
            && (ParsedDate(f).None? ==>
                  forall d: Date, a: nat, b: nat, q: nat :: Ok(d) ==> !SpellsThe(d, t, p, a, b, q))
  {
    hide NumberOf, ParsedDate, FullDateAt;
    forall d: Date, a: nat, b: nat, q: nat | Ok(d) && SpellsThe(d, t, p, a, b, q)
      ensures ParsedDate(FullDateAt(t, p)).Some?
    {
      SpeltMakesDate(t, p, a, b, q);
    }
    if ParsedDate(FullDateAt(t, p)).Some? {
      assert FullDateAt(t, p).Ymd? by { NoDateParsed(FullDateAt(t, p)); }
      var a, b := ReadIsSpelt(t, p);
      SpeltMakesDate(t, p, a, b, FullDateAt(t, p).next);
      assert SpellsThe(ParsedDate(FullDateAt(t, p)).value, t, p, a, b, FullDateAt(t, p).next);
    }
  }

  lemma NoDateParsed(f: FullDate)
    ensures ParsedDate(f).Some? ==> f.Ymd?
  {
  }

  lemma SpeltMakesDate(t: string, p: nat, a: nat, b: nat, q: nat)
    requires SpellsDate(t, p, a, b, q)
    ensures FullDateAt(t, p).Ymd? && FullDateAt(t, p).next == q
    ensures var f := FullDateAt(t, p);
            && -9999 <= f.Y <= 9999 && 0 <= f.m <= 99 && 0 <= f.d <= 99
            && ParsedDate(f) == (if Ok(Date(f.Y, f.m, f.d)) then Some(Date(f.Y, f.m, f.d)) else None)
            && SpellsThe(Date(f.Y, f.m, f.d), t, p, a, b, q)
  {
    hide NumberOf, ParsedDate, FullDateAt;
    SpeltIsRead(t, p, a, b, q);
    NumberBound(t, AfterSign(t, p), a);
    NumberBound(t, a + 1, b);
    NumberBound(t, b + 1, q);
    var f := FullDateAt(t, p);
    NumbersMakeDate(f.Y, f.m, f.d, q);
  }

  /** For example, dashes are read and slashes are not. */
  lemma SlashesFail()
    ensures ParsedDate(FullDateAt("2021-01-02", 0)) == Some(Date(2021, 1, 2))
    ensures ParsedDate(FullDateAt("2021/01/02", 0)) == None
  {
    hide FullDateAt, NumberOf, SpellsThe;
    DashesSpell();
    SpeltMakesDate("2021-01-02", 0, 4, 7, 10);
    SpeltIsRead("2021-01-02", 0, 4, 7, 10);
    SlashesAreNoDate("2021/01/02");
  }

  lemma SlashesAreNoDate(t: string)
    requires t == "2021/01/02"
    ensures ParsedDate(FullDateAt(t, 0)) == None
  {
    hide NumberOf, FullDateAt, SpellsDate;
    if FullDateAt(t, 0).Ymd? {
      var a, b := ReadIsSpelt(t, 0);
      SlashesSpellNot(t, a, b, FullDateAt(t, 0).next);
    }
  }

  lemma DashesSpell()
    ensures var t := "2021-01-02";
            && SpellsDate(t, 0, 4, 7, 10) && SignedNumberOf(t, 0, 4) == 2021 && NumberOf(t, 5, 7) == 1
            && NumberOf(t, 8, 10) == 2
  {
    var t := "2021-01-02";
    assert NumberOf(t, 0, 2) == 20;
  }

  lemma SlashesSpellNot(t: string, a: nat, b: nat, q: nat)
    requires t == "2021/01/02"
    ensures !SpellsDate(t, 0, a, b, q)
  {
    if a == 4 {
      assert t[4] == '/';
    } else if a < 4 {
      assert t[a] != '-';
    }
  }

  // ---------------------------------------------------------------------------
  // Printing and reading back
  // ---------------------------------------------------------------------------

  /** The years whose %F form can be read back: four columns that are all digits, or a sign and three digits. */
  predicate ReadableYear(y: int) {
    0 <= y <= 9999 || -999 <= y <= -100
  }

  lemma DigitsOfSmall(n: nat)
    requires n < 100
    ensures ZeroFill(Digits(n), 2) == [DigitOf(n / 10), DigitOf(n % 10)]
    ensures n >= 10 ==> Digits(n) == [DigitOf(n / 10), DigitOf(n % 10)]
  {
    if n < 10 {
      assert ZeroFill("0" + Digits(n), 2) == ['0', DigitOf(n)];
    }
  }

  lemma DigitsOfThree(n: nat)
    requires 100 <= n < 1000
    ensures Digits(n) == [DigitOf(n / 100), DigitOf(n / 10 % 10), DigitOf(n % 10)]
  {
    DigitsOfSmall(n / 10);
  }

  /** A number of four or more digits starts with at least four digits. */
  lemma {:induction false} DigitsOfMany(n: nat)
    requires n >= 1000
    ensures |Digits(n)| >= 4 && (n >= 10000 ==> |Digits(n)| >= 5)
    ensures forall i :: 0 <= i < |Digits(n)| ==> IsDigit(Digits(n)[i])
  {
    if n >= 10000 {
      DigitsOfMany(n / 10);
    } else {
      DigitsOfThree(n / 10);
    }
  }

  lemma YearColumns(y: nat)
    requires y <= 9999
    ensures ZeroFill(Decimal(y), 4) == [DigitOf(y / 1000), DigitOf(y / 100 % 10), DigitOf(y / 10 % 10), DigitOf(y % 10)]
  {
    hide ZeroFill, Digits;
    assert Decimal(y) == Digits(y);
    if y < 10 {
      OneDigitText(y);
      FillToFour(Digits(y));
    } else if y < 100 {
      DigitsOfSmall(y);
      FillToFour(Digits(y));
    } else if y < 1000 {
      DigitsOfThree(y);
      FillToFour(Digits(y));
    } else {
      FourDigitText(y);
      FillToFour(Digits(y));
    }
  }

  lemma OneDigitText(y: nat)
    requires y < 10
    ensures Digits(y) == [DigitOf(y)]
  {
  }

  lemma FourDigitText(y: nat)
    requires 1000 <= y <= 9999
    ensures Digits(y) == [DigitOf(y / 1000), DigitOf(y / 100 % 10), DigitOf(y / 10 % 10), DigitOf(y % 10)]
  {
    DigitsOfThree(y / 10);
    assert y / 10 / 100 == y / 1000 && y / 10 / 10 == y / 100;
  }

  /** Zeros before one, two or three characters */
  lemma FillToFour(s: string)
    requires 1 <= |s| <= 4
    ensures |s| == 1 ==> ZeroFill(s, 4) == ['0', '0', '0', s[0]]
    ensures |s| == 2 ==> ZeroFill(s, 4) == ['0', '0', s[0], s[1]]
    ensures |s| == 3 ==> ZeroFill(s, 4) == ['0', s[0], s[1], s[2]]
    ensures |s| == 4 ==> ZeroFill(s, 4) == s
    decreases 4 - |s|
  {
    if |s| < 4 {
      FillToFour("0" + s);
    }
  }

  lemma DecOfTwo(t: string, p: nat, n: nat)
    requires p + 2 <= |t| && n < 100 && t[p] == DigitOf(n / 10) && t[p + 1] == DigitOf(n % 10)
    ensures UnsignedAt(t, p, 1, 2) == Got(n, p + 2, false)
  {
    DecGrows(t, p, p + 1);
    DecGrows(t, p, p + 2);
    assert Run(t, p + 1, 1) == 1 + Run(t, p + 2, 0);
  }

  lemma RunOfDigits(t: string, p: nat, k: nat)
    requires p + k <= |t| && forall i :: p <= i < p + k ==> IsDigit(t[i])
    ensures Run(t, p, k) == k
    decreases k
  {
    if k > 0 {
      RunOfDigits(t, p + 1, k - 1);
    }
  }

  lemma DecOfThree(t: string, p: nat, a: nat, b: nat, c: nat)
    requires p + 3 <= |t| && a < 10 && b < 10 && c < 10
    requires t[p] == DigitOf(a) && t[p + 1] == DigitOf(b) && t[p + 2] == DigitOf(c)
    ensures DecAt(t, p, p + 3) == 100 * a + 10 * b + c
  {
    DecGrows(t, p, p + 1);
    DecGrows(t, p, p + 2);
    DecGrows(t, p, p + 3);
  }

  lemma DecOfFour(t: string, p: nat, n: nat)
    requires p + 4 <= |t| && n < 10000
    requires t[p] == DigitOf(n / 1000) && t[p + 1] == DigitOf(n / 100 % 10)
             && t[p + 2] == DigitOf(n / 10 % 10) && t[p + 3] == DigitOf(n % 10)
    ensures DecAt(t, p, p + 4) == n
  {
    DecOfThree(t, p, n / 1000, n / 100 % 10, n / 10 % 10);
    DecGrows(t, p, p + 4);
    FourDigits(n);
  }

  lemma FourDigits(n: nat)
    requires n < 10000
    ensures n == 1000 * (n / 1000) + 100 * (n / 100 % 10) + 10 * (n / 10 % 10) + n % 10
  {
    assert n / 100 == 10 * (n / 1000) + n / 100 % 10;
    assert n / 10 == 10 * (n / 100) + n / 10 % 10;
  }

  /** The month and day columns. */
  lemma ReadMonthDay(d: Date)
    requires Ok(d)
    ensures var t := PrintF(d);
            var y := |ZeroFill(Decimal(d.year), 4)|;
            && |t| == y + 6 && t[..y] == ZeroFill(Decimal(d.year), 4) && t[y] == '-' && t[y + 3] == '-'
            && UnsignedAt(t, y + 1, 1, 2) == Got(d.month, y + 3, false)
            && UnsignedAt(t, y + 4, 1, 2) == Got(d.day, y + 6, false)
  {
    hide UnsignedAt, ZeroFill, Digits;
    MonthTable(d);
    var year := ZeroFill(Decimal(d.year), 4);
    var t := PrintF(d);
    DigitsOfSmall(d.month);
    DigitsOfSmall(d.day);
    assert t == year + ['-', DigitOf(d.month / 10), DigitOf(d.month % 10),
                        '-', DigitOf(d.day / 10), DigitOf(d.day % 10)];
    DecOfTwo(t, |year| + 1, d.month);
    DecOfTwo(t, |year| + 4, d.day);
  }

  lemma FourColumns(t: string, y: nat)
    requires |t| > 4 && y <= 9999
    requires t[0] == DigitOf(y / 1000) && t[1] == DigitOf(y / 100 % 10) && t[2] == DigitOf(y / 10 % 10)
             && t[3] == DigitOf(y % 10)
    ensures SignedAt(t, 0, 1, 4) == Got(y, 4, false)
  {
    hide Run, DecAt;
    RunOfDigits(t, 0, 4);
    DecOfFour(t, 0, y);
  }

  lemma SignAndThreeColumns(t: string, n: nat)
    requires |t| > 4 && n <= 999
    requires t[0] == '-' && t[1] == DigitOf(n / 100) && t[2] == DigitOf(n / 10 % 10) && t[3] == DigitOf(n % 10)
    ensures SignedAt(t, 0, 1, 4) == Got(0 - n, 4, false)
  {
    hide Run, DecAt;
    RunOfDigits(t, 1, 3);
    FourDigits(n);
    DecOfThree(t, 1, n / 100, n / 10 % 10, n % 10);
  }

  lemma ReadableYearIsRead(d: Date)
    requires Ok(d) && ReadableYear(d.year)
    ensures |ZeroFill(Decimal(d.year), 4)| == 4 && SignedAt(PrintF(d), 0, 1, 4) == Got(d.year, 4, false)
  {
    hide ZeroFill, Digits, PrintF, SignedAt, UnsignedAt;
    ReadMonthDay(d);
    var t := PrintF(d);
    if d.year >= 0 {
      YearColumns(d.year);
    } else {
      NegativeYear(d.year);
    }
    assert t[..4][0] == t[0] && t[..4][1] == t[1] && t[..4][2] == t[2] && t[..4][3] == t[3];
    if d.year >= 0 {
      FourColumns(t, d.year);
    } else {
      SignAndThreeColumns(t, -d.year);
    }
  }

  lemma NegativeYear(y: int)
    requires -999 <= y < 0
    ensures var n := -y;
            ZeroFill(Decimal(y), 4) ==
            if n < 10 then ['0', '0', '-', DigitOf(n)]
            else if n < 100 then ['0', '-', DigitOf(n / 10), DigitOf(n % 10)]
            else ['-', DigitOf(n / 100), DigitOf(n / 10 % 10), DigitOf(n % 10)]
  {
    var n := -y;
    if n < 10 {
      assert ZeroFill(Decimal(y), 4) == ZeroFill("0" + Decimal(y), 4) == ZeroFill("0" + ("0" + Decimal(y)), 4);
      assert "0" + ("0" + Decimal(y)) == ['0', '0', '-', DigitOf(n)];
    } else if n < 100 {
      DigitsOfSmall(n);
      assert "0" + Decimal(y) == ['0', '-', DigitOf(n / 10), DigitOf(n % 10)];
    } else {
      DigitsOfThree(n);
    }
  }

  /** More than four columns: the character after the four that are read is a digit. */
  lemma LongYearIsNotRead(d: Date)
    requires Ok(d) && (d.year >= 10000 || d.year <= -1000)
    ensures FullDateAt(PrintF(d), 0) == NoDate
  {
    hide Digits, Run, DecAt;
    var t := PrintF(d);
    var n := if d.year < 0 then -d.year else d.year as int;
    DigitsOfMany(n);
    var year := Decimal(d.year);
    assert |year| >= 5 && ZeroFill(year, 4) == year;
    assert forall i :: 0 <= i < 5 ==> t[i] == year[i];
    assert d.year < 0 ==> forall i :: 0 < i < 5 ==> year[i] == Digits(n)[i - 1];
    if d.year < 0 {
      RunOfDigits(t, 1, 3);
    } else {
      RunOfDigits(t, 0, 4);
    }
  }

  /** A sign among fill zeros ends the year early: it is read as 0. */
  lemma ShortNegativeYearIsZero(d: Date)
    requires Ok(d) && -99 <= d.year < 0
    ensures FullDateAt(PrintF(d), 0).Ymd? ==> FullDateAt(PrintF(d), 0).Y == 0
  {
    hide ZeroFill, Digits, PrintF, UnsignedAt, Run;
    ReadMonthDay(d);
    NegativeYear(d.year);
    var t := PrintF(d);
    assert t[..4][0] == t[0] && t[..4][1] == t[1] && t[..4][2] == t[2];
    LeadingZeros(t);
  }

  lemma LeadingZeros(t: string)
    requires |t| >= 3 && t[0] == '0' && (t[1] == '-' || (t[1] == '0' && t[2] == '-'))
    ensures SignedAt(t, 0, 1, 4).Got? && SignedAt(t, 0, 1, 4).value == 0
  {
    DecGrows(t, 0, 1);
    assert Run(t, 0, 4) == 1 + Run(t, 1, 3);
    if t[1] == '-' {
      assert Run(t, 1, 3) == 0;
    } else {
      assert Run(t, 1, 3) == 1 + Run(t, 2, 2);
      DecGrows(t, 0, 2);
    }
  }

  /** Reading the %F form of a date gives the date back exactly for the years 0..9999 and -999..-100; then all of it
      is read. */
  lemma FullDateRoundTrip(d: Date)
    requires Ok(d)
    ensures ParsedDate(FullDateAt(PrintF(d), 0)) == Some(d) <==> ReadableYear(d.year)
    ensures ReadableYear(d.year) ==> FullDateAt(PrintF(d), 0).next == |PrintF(d)|
  {
    hide PrintF, UnsignedAt, SignedAt, ParseFields.Resolve;
    var f := FullDateAt(PrintF(d), 0);
    if ReadableYear(d.year) {
      ReadMonthDay(d);
      ReadableYearIsRead(d);
      assert f == Ymd(d.year, d.month, d.day, |PrintF(d)|);
      OwnDateAgrees(d);
      ParseFields.ResolveFindsDate(ParseFields.NOTHING.(Y := d.year, m := d.month, d := d.day), d);
    } else if d.year >= 10000 || d.year <= -1000 {
      LongYearIsNotRead(d);
    } else {
      ShortNegativeYearIsZero(d);
      if ParsedDate(f) == Some(d) {
        ParseFields.ResolveRejectsContradictions(ParseFields.NOTHING.(Y := f.Y, m := f.m, d := f.d));
      }
    }
  }

  lemma OwnDateAgrees(d: Date)
    requires Ok(d)
    ensures var f := ParseFields.NOTHING.(Y := d.year, m := d.month, d := d.day);
            ParseFields.Agrees(f, d) && ParseFields.Sufficient(f)
  {
    hide ToDays;
  }

  /** For example, January 2nd of year -5 prints as 00-5-01-02 and reads back, without failing, as May 1st of year 0. */
  lemma NegativeYearMisread()
    ensures PrintF(Date(-5, 1, 2)) == "00-5-01-02"
    ensures ParsedDate(FullDateAt("00-5-01-02", 0)) == Some(Date(0, 5, 1))
  {
    hide ParseFields.Resolve, FullDateAt, PrintF;
    MisreadPrinted();
    MisreadRead();
    OwnDateAgrees(Date(0, 5, 1));
    ParseFields.ResolveFindsDate(ParseFields.NOTHING.(Y := 0, m := 5, d := 1), Date(0, 5, 1));
  }

  lemma MisreadPrinted()
    ensures PrintF(Date(-5, 1, 2)) == "00-5-01-02"
  {
    hide ZeroFill, Digits, Decimal;
    NegativeYear(-5);
    DigitsOfSmall(1);
    DigitsOfSmall(2);
    assert Decimal(1) == Digits(1) && Decimal(2) == Digits(2) by { DecimalOfNat(1); DecimalOfNat(2); }
  }

  lemma DecimalOfNat(n: nat)
    ensures Decimal(n) == Digits(n)
  {
  }

  lemma MisreadRead()
    ensures FullDateAt("00-5-01-02", 0) == Ymd(0, 5, 1, 7)
  {
    hide DecAt;
    var t := "00-5-01-02";
    LeadingZeros(t);
    assert Run(t, 0, 4) == 2 by { assert Run(t, 1, 3) == 1 + Run(t, 2, 2); }
    assert SignedAt(t, 0, 1, 4) == Got(0, 2, false);
    assert DecAt(t, 3, 4) == 5 by { OneDigit(t, 3); }
    assert Run(t, 3, 2) == 1 + Run(t, 4, 1);
    DecOfTwo(t, 5, 1);
  }

  lemma OneDigit(t: string, p: nat)
    requires p < |t| && IsDigit(t[p])
    ensures DecAt(t, p, p + 1) == ValueOf(t[p])
  {
    DecGrows(t, p, p + 1);
  }
}
