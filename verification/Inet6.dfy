/** IPv6 addresses as text: evutil_inet_ntop and evutil_inet_pton. */
module Inet6 {

  type Word = w: nat | w < 0x1_0000

  // ---- Numbers as digits

  predicate IsDigit(c: char)
  {
    '0' <= c <= '9'
  }

  predicate IsHex(c: char)
  {
    IsDigit(c) || 'a' <= c <= 'f' || 'A' <= c <= 'F'
  }

  function HexOf(c: char): (v: nat)
    ensures v < 16
  {
    if IsDigit(c) then c as nat - '0' as nat
    else if 'a' <= c <= 'f' then c as nat - 'a' as nat + 10
    else if 'A' <= c <= 'F' then c as nat - 'A' as nat + 10
    else 0
  }

  function DigitFor(v: nat): (c: char)
    requires v < 16
    ensures IsHex(c) && HexOf(c) == v && (v < 10 ==> IsDigit(c))
  {
    if v < 10 then ('0' as nat + v) as char else ('a' as nat + v - 10) as char
  }

  /** Letters are small. */
  lemma DigitsAre(v: nat)
    requires v < 16
    ensures DigitFor(v) == "0123456789abcdef"[v]
  {
    if v < 8 {
      if v < 4 { assert v == 0 || v == 1 || v == 2 || v == 3; } else { assert v == 4 || v == 5 || v == 6 || v == 7; }
    } else {
      if v < 12 { assert v == 8 || v == 9 || v == 10 || v == 11; } else { assert v == 12 || v == 13 || v == 14 || v == 15; }
    }
  }

  /** printf's %x and %d for numbers that are not negative. */
  function Print(n: nat, base: nat): (s: string)
    requires base == 10 || base == 16
    ensures s != ""
  {
    if n < base then [DigitFor(n)] else Print(n / base, base) + [DigitFor(n % base)]
  }

  ghost predicate Digits(s: string, base: nat)
  {
    forall i :: 0 <= i < |s| ==> if base == 10 then IsDigit(s[i]) else IsHex(s[i])
  }

  lemma {:induction false} PrintDigits(n: nat, base: nat)
    requires base == 10 || base == 16
    ensures Digits(Print(n, base), base)
  {
    if n >= base { PrintDigits(n / base, base); }
  }

  function ValueOf(s: string, base: nat): nat
  {
    if s == "" then 0 else ValueOf(s[..|s| - 1], base) * base + HexOf(s[|s| - 1])
  }

  lemma {:induction false} PrintValue(n: nat, base: nat)
    requires base == 10 || base == 16
    ensures ValueOf(Print(n, base), base) == n
  {
    if n < base {
      assert Print(n, base)[..0] == "";
    } else {
      PrintValue(n / base, base);
      assert Print(n, base)[..|Print(n, base)| - 1] == Print(n / base, base);
    }
  }

  lemma PrintShort(w: Word)
    ensures |Print(w, 16)| <= 4
  {
    var a := w / 16;
    var b := a / 16;
    var c := b / 16;
    assert |Print(c, 16)| == 1;
    assert |Print(b, 16)| <= 2;
    assert |Print(a, 16)| <= 3;
  }

  // ---- What the scanning functions read

  /** How many hexadecimal digits lie at k. */
  function HexRun(t: string, k: nat): (n: nat)
    ensures k <= |t| ==> k + n <= |t|
    ensures forall i :: k <= i < k + n ==> i < |t| && IsHex(t[i])
    decreases |t| - k
  {
    if k < |t| && IsHex(t[k]) then 1 + HexRun(t, k + 1) else 0
  }

  function DigitRun(t: string, k: nat): (n: nat)
    ensures k <= |t| ==> k + n <= |t|
    ensures forall i :: k <= i < k + n ==> i < |t| && IsDigit(t[i])
    decreases |t| - k
  {
    if k < |t| && IsDigit(t[k]) then 1 + DigitRun(t, k + 1) else 0
  }

  /** Text s lies at k. */
  ghost predicate At(t: string, k: nat, s: string)
  {
    k + |s| <= |t| && t[k..k + |s|] == s
  }

  lemma {:induction false} RunIs(t: string, k: nat, s: string, base: nat)
    requires base == 10 || base == 16
    requires At(t, k, s) && Digits(s, base)
    requires k + |s| == |t| || !(if base == 10 then IsDigit(t[k + |s|]) else IsHex(t[k + |s|]))
    ensures (if base == 10 then DigitRun(t, k) else HexRun(t, k)) == |s|
    decreases |s|
  {
    if s != "" {
      assert t[k] == t[k..k + |s|][0] == s[0];
      assert t[k + 1..k + 1 + |s[1..]|] == t[k..k + |s|][1..] == s[1..];
      RunIs(t, k + 1, s[1..], base);
    }
  }

  /** Where strtol begins to read digits. */
  function SkipPrefix(t: string, k: nat): (from: nat)
    requires k < |t|
    ensures k <= from < |t| && (IsHex(t[k]) ==> IsHex(t[from]))
  {
    if t[k] == '0' && k + 2 < |t| && (t[k + 1] == 'x' || t[k + 1] == 'X') && IsHex(t[k + 2]) then k + 2 else k
  }

  /** strtol(t + k, &next, 16), where the text at k begins with a hexadecimal digit: a 0x in front is skipped. */
  function Strtol16(t: string, k: nat): (r: (nat, nat))
    requires k < |t| && IsHex(t[k])
    ensures k < r.1 <= |t|
  {
    var from := SkipPrefix(t, k);
    var n := HexRun(t, from);
    (ValueOf(t[from..from + n], 16), from + n)
  }

  lemma ReadsWord(t: string, k: nat, w: Word)
    requires At(t, k, Print(w, 16)) && (k + |Print(w, 16)| == |t| || t[k + |Print(w, 16)|] == ':')
    ensures k < |t| && IsHex(t[k]) && Strtol16(t, k) == (w, k + |Print(w, 16)|)
  {
    var s := Print(w, 16);
    hide Print, ValueOf, HexRun;
    assert t[k] == t[k..k + |s|][0] == s[0];
    PrintDigits(w, 16);
    RunIs(t, k, s, 16);
    PrintValue(w, 16);
    if |s| > 1 { assert t[k + 1] == t[k..k + |s|][1] == s[1]; }
  }

  predicate IsBlank(c: char)
  {
    c == ' ' || c == '\t' || c == '\n' || c == '\r' || c == 11 as char || c == 12 as char
  }

  function SkipBlanks(t: string, k: nat): (n: nat)
    ensures k <= n && (k <= |t| ==> n <= |t|)
    decreases |t| - k
  {
    if k < |t| && IsBlank(t[k]) then SkipBlanks(t, k + 1) else k
  }

  datatype Scan = NoNumber | Number(v: int, next: nat)

  /** sscanf's %d at k. */
  function ScanInt(t: string, k: nat): (r: Scan)
    ensures r.Number? ==> r.next <= |t|
  {
    var b := SkipBlanks(t, k);
    var d := if b < |t| && (t[b] == '-' || t[b] == '+') then b + 1 else b;
    var n := DigitRun(t, d);
    if d > |t| || n == 0 then NoNumber
    else
      var v: int := ValueOf(t[d..d + n], 10);
      Number(if t[b] == '-' then -v else v, d + n)
  }

  /** The four numbers of a dotted quad that takes up the rest of the text, if that is what is there. */
  function ScanQuad(t: string, k: nat): (r: seq<int>)
    ensures r == [] || |r| == 4
  {
    var a := ScanInt(t, k);
    if a.NoNumber? || a.next >= |t| || t[a.next] != '.' then [] else
    var b := ScanInt(t, a.next + 1);
    if b.NoNumber? || b.next >= |t| || t[b.next] != '.' then [] else
    var c := ScanInt(t, b.next + 1);
    if c.NoNumber? || c.next >= |t| || t[c.next] != '.' then [] else
    var d := ScanInt(t, c.next + 1);
    if d.NoNumber? || d.next != |t| then [] else [a.v, b.v, c.v, d.v]
  }

  lemma ReadsByte(t: string, k: nat, b: nat)
    requires At(t, k, Print(b, 10)) && (k + |Print(b, 10)| == |t| || t[k + |Print(b, 10)|] == '.')
    ensures ScanInt(t, k) == Number(b, k + |Print(b, 10)|)
  {
    var s := Print(b, 10);
    PrintDigits(b, 10);
    assert t[k] == t[k..k + |s|][0] == s[0] && IsDigit(t[k]);
    RunIs(t, k, s, 10);
    PrintValue(b, 10);
  }

  /** "%d.%d" */
  function Dotted2(c: nat, d: nat): string
  {
    Print(c, 10) + (['.'] + Print(d, 10))
  }

  /** "%d.%d.%d" */
  function Dotted3(b: nat, c: nat, d: nat): string
  {
    Print(b, 10) + (['.'] + Dotted2(c, d))
  }

  /** "%d.%d.%d.%d" */
  function Dotted(a: nat, b: nat, c: nat, d: nat): string
  {
    Print(a, 10) + (['.'] + Dotted3(b, c, d))
  }

  /** The last two words of an address as a dotted quad. */
  function Quad(w6: Word, w7: Word): string
  {
    Dotted(w6 / 256, w6 % 256, w7 / 256, w7 % 256)
  }

  /** From k on, the text is s. */
  ghost predicate Rest(t: string, k: nat, s: string)
  {
    k <= |t| && t[k..] == s
  }

  lemma RestSplit(t: string, k: nat, a: string, c: char, b: string)
    requires Rest(t, k, a + ([c] + b))
    ensures At(t, k, a) && k + |a| < |t| && t[k + |a|] == c && Rest(t, k + |a| + 1, b)
  {
    var s := a + ([c] + b);
    assert t[k..][..|a|] == s[..|a|] == a && t[k..][|a|] == s[|a|] == c && t[k..][|a| + 1..] == s[|a| + 1..] == b;
  }

  lemma RestAll(t: string, k: nat, a: string)
    requires Rest(t, k, a)
    ensures At(t, k, a) && k + |a| == |t|
  {
  }

  /** The number b, then c, then rest. */
  ghost predicate Leads(t: string, k: nat, b: nat, k': nat, rest: string)
  {
    ScanInt(t, k) == Number(b, k') && k' < |t| && t[k'] == '.' && Rest(t, k' + 1, rest)
  }

  lemma ReadsDotted(t: string, k: nat, b: nat, rest: string)
    requires Rest(t, k, Print(b, 10) + (['.'] + rest))
    ensures Leads(t, k, b, k + |Print(b, 10)|, rest)
  {
    RestSplit(t, k, Print(b, 10), '.', rest);
    ReadsByte(t, k, b);
  }

  lemma ReadsFour(t: string, k: nat, a: nat, b: nat, c: nat, d: nat)
    requires Rest(t, k, Dotted(a, b, c, d))
    ensures ScanQuad(t, k) == [a, b, c, d]
  {
    var r2 := Dotted3(b, c, d);
    ReadsDotted(t, k, a, r2);
    ReadsThree(t, k, a, k + |Print(a, 10)|, b, c, d);
  }

  lemma ReadsThree(t: string, k: nat, a: nat, k1: nat, b: nat, c: nat, d: nat)
    requires Leads(t, k, a, k1, Dotted3(b, c, d))
    ensures ScanQuad(t, k) == [a, b, c, d]
  {
    hide Print, ScanInt, ScanQuad;
    ReadsDotted(t, k1 + 1, b, Dotted2(c, d));
    var k2 := k1 + 1 + |Print(b, 10)|;
    ReadsDotted(t, k2 + 1, c, Print(d, 10));
    var k3 := k2 + 1 + |Print(c, 10)|;
    RestAll(t, k3 + 1, Print(d, 10));
    ReadsByte(t, k3 + 1, d);
    ScanQuadIs(t, k, a, k1, b, k2, c, k3, d);
  }

  lemma ScanQuadIs(t: string, k: nat, a: int, k1: nat, b: int, k2: nat, c: int, k3: nat, d: int)
    requires ScanInt(t, k) == Number(a, k1) && k1 < |t| && t[k1] == '.'
    requires ScanInt(t, k1 + 1) == Number(b, k2) && k2 < |t| && t[k2] == '.'
    requires ScanInt(t, k2 + 1) == Number(c, k3) && k3 < |t| && t[k3] == '.'
    requires ScanInt(t, k3 + 1) == Number(d, |t|)
    ensures ScanQuad(t, k) == [a, b, c, d]
  {
    hide ScanInt;
  }

  // ---- Printing

  /** a, a colon, b. */
  function Colon(a: string, b: string): string
  {
    a + ([':'] + b)
  }

  /** The text of the words from i on, when the n words from p on are left out; p is -1 if none are. */
  function From(w: seq<Word>, i: nat, p: int, n: nat): string
    requires |w| == 8 && (p < 0 || (p + n <= 8 && n > 0))
    decreases 8 - i, p >= 0
  {
    if i >= 8 then ""
    else if i == p then
      var after := From(w, p + n, -1, 0);
      if i == 0 then Colon("", Colon("", after)) else Colon("", after)
    else if i == 7 then Print(w[i], 16)
    else Colon(Print(w[i], 16), From(w, i + 1, p, n))
  }

  /** The words from a to b are zeros. */
  ghost predicate Zeros(w: seq<Word>, a: int, b: int)
    requires |w| == 8 && 0 <= a <= b <= 8
  {
    forall i :: a <= i < b ==> w[i] == 0
  }

  /** n zeros from p on: the leftmost of the longest runs of zeros, if that is two long or longer; else p is -1. */
  ghost predicate IsGap(w: seq<Word>, p: int, n: nat)
    requires |w| == 8
  {
    if p < 0 then forall a, b :: 0 <= a && a + 2 <= b <= 8 ==> !Zeros(w, a, b)
    else
      && p + n <= 8 && n >= 2 && Zeros(w, p, p + n)
      && (forall a, b :: 0 <= a <= b <= 8 && b - a > n ==> !Zeros(w, a, b))
      && (forall a, b :: 0 <= a < p && a <= b <= 8 && b - a == n ==> !Zeros(w, a, b))
  }

  /** The two loops of evutil_inet_ntop that look for the gap. */
  method FindGap(w: seq<Word>) returns (p: int, n: nat)
    requires |w| == 8
    ensures p >= -1 && IsGap(w, p, n)
  {
    p, n := -1, 0;
    var i := 0;
    while i < 8
      invariant 0 <= i <= 8 && (p == -1 <==> n == 0) && p >= -1
      invariant i == 0 || i == 8 || w[i - 1] != 0 || w[i] != 0
      invariant p >= 0 ==> p + n <= i && Zeros(w, p, p + n)
      invariant forall a, b :: 0 <= a <= b <= i && b - a > n ==> !Zeros(w, a, b)
      invariant p >= 0 ==> forall a, b :: 0 <= a < p && a <= b <= i && b - a == n ==> !Zeros(w, a, b)
    {
      if w[i] == 0 {
        var pos, len := i, 1;
        i := i + 1;
        while i < 8 && w[i] == 0
          invariant pos < i <= 8 && len == i - pos && Zeros(w, pos, i)
        {
          i, len := i + 1, len + 1;
        }
        assert pos > 0 ==> w[pos - 1] != 0;
        forall a, b | 0 <= a <= b <= i && Zeros(w, a, b) && b > pos ensures b - a <= len {
        }
        if len > n {
          p, n := pos, len;
        }
      } else {
        i := i + 1;
      }
    }
    if n <= 1 {
      p := -1;
    }
  }

  /** A dotted quad is used at the end of the text. */
  predicate IsV4(w: seq<Word>)
    requires |w| == 8
  {
    w[0] == 0 && w[1] == 0 && w[2] == 0 && w[3] == 0 && w[4] == 0 && ((w[5] == 0 && w[6] != 0 && w[7] != 0) || w[5] == 0xffff)
  }

  /** The text before the dotted quad. */
  function V4Front(w: seq<Word>): string
    requires |w| == 8
  {
    if w[5] == 0 then Colon("", Colon("", "")) else Colon("", Colon("", Colon(Print(w[5], 16), "")))
  }

  /** t is the text of the address w. */
  ghost predicate IsText(t: string, w: seq<Word>)
    requires |w| == 8
  {
    if IsV4(w) then t == V4Front(w) + Quad(w[6], w[7])
    else exists p, n: nat :: p >= -1 && IsGap(w, p, n) && (p < 0 || (p + n <= 8 && n > 0)) && t == From(w, 0, p, n)
  }

  lemma PrintMore(n: nat, base: nat)
    requires base == 10 || base == 16
    ensures Print(n, base) == if n < base then [DigitFor(n)] else Print(n / base, base) + [DigitFor(n % base)]
  {
  }

  lemma HexExamples()
    ensures Print(0x2001, 16) == "2001" && Print(0xdb8, 16) == "db8" && Print(0xa1, 16) == "a1"
  {
    hide Print;
    PrintMore(2, 16);
    PrintMore(0x20, 16);
    PrintMore(0x200, 16);
    PrintMore(0x2001, 16);
    PrintMore(0xd, 16);
    PrintMore(0xdb, 16);
    PrintMore(0xdb8, 16);
    PrintMore(0xa, 16);
    PrintMore(0xa1, 16);
  }

  lemma DecimalExamples()
    ensures Print(0xffff, 16) == "ffff" && Print(192, 10) == "192" && Print(1, 10) == "1" && Print(2, 10) == "2" && Print(3, 10) == "3"
  {
    hide Print;
    PrintMore(0xf, 16);
    PrintMore(0xff, 16);
    PrintMore(0xfff, 16);
    PrintMore(0xffff, 16);
    PrintMore(1, 10);
    PrintMore(2, 10);
    PrintMore(3, 10);
    PrintMore(19, 10);
    PrintMore(192, 10);
  }

  /** The text of an address with a gap. */
  lemma GapExample()
    ensures From([0x2001, 0xdb8, 0, 0, 0, 0, 0, 0xa1], 0, 2, 5) == "2001:db8::a1"
  {
    hide Print;
    HexExamples();
    var w: seq<Word> := [0x2001, 0xdb8, 0, 0, 0, 0, 0, 0xa1];
    assert From(w, 7, -1, 0) == "a1";
    assert From(w, 2, 2, 5) == ":a1";
    assert From(w, 1, 2, 5) == "db8::a1";
  }

  lemma QuadText()
    ensures Quad(0x102, 0x3c0) == "1.2.3.192"
  {
    hide Print;
    DecimalExamples();
    assert Dotted2(3, 192) == "3.192";
    assert Dotted3(2, 3, 192) == "2.3.192";
  }

  lemma FrontText(w: seq<Word>)
    requires |w| == 8 && w[5] == 0xffff
    ensures V4Front(w) == "::ffff:"
  {
    hide Print;
    DecimalExamples();
  }

  /** And of one with a quad. */
  lemma QuadExample()
    ensures V4Front([0, 0, 0, 0, 0, 0xffff, 0x102, 0x3c0]) + Quad(0x102, 0x3c0) == "::ffff:1.2.3.192"
  {
    hide *;
    QuadText();
    FrontText([0, 0, 0, 0, 0, 0xffff, 0x102, 0x3c0]);
  }

  datatype Delivered = Null | Text(s: string)

  lemma FromWord(buf: string, w: seq<Word>, i: nat, p: int, n: nat)
    requires |w| == 8 && i < 8 && (p < 0 || (i < p && p + n <= 8 && n > 0))
    ensures buf + From(w, i, p, n) == buf + Print(w[i], 16) + (if i == 7 then "" else [':']) + From(w, i + 1, p, n)
  {
    var a, b := Print(w[i], 16), From(w, i + 1, p, n);
    assert buf + Colon(a, b) == buf + a + [':'] + b;
    assert i == 7 ==> b == "" && buf + a == buf + a + "" + b;
  }

  lemma FromGap(buf: string, w: seq<Word>, p: nat, n: nat)
    requires |w| == 8 && p + n <= 8 && n > 0
    ensures buf + From(w, p, p, n) == buf + (if p == 0 then [':'] else "") + [':'] + From(w, p + n, -1, 0)
  {
    var after := From(w, p + n, -1, 0);
    assert buf + Colon("", after) == buf + [':'] + after && buf + "" == buf;
    assert buf + Colon("", Colon("", after)) == buf + [':'] + [':'] + after;
  }

  lemma FromEnd(buf: string, w: seq<Word>, i: nat, p: int, n: nat)
    requires |w| == 8 && i >= 8 && p < 0
    ensures buf + From(w, i, p, n) == buf
  {
  }

  /** The loop that writes the words and the gap. */
  method PrintWords(w: seq<Word>, p: int, n: nat) returns (buf: string)
    requires |w| == 8 && p >= -1 && IsGap(w, p, n)
    ensures buf == From(w, 0, p, n)
  {
    hide From, Print;
    buf := "";
    var i := 0;
    ghost var q, m := p, n;   // the gap, while it is still to come
    ghost var whole := From(w, 0, p, n);
    assert "" + whole == whole;
    while i < 8
      invariant 0 <= i <= 8 && if q >= 0 then q == p && m == n && i <= p else p < i
      invariant buf + From(w, i, q, m) == whole
    {
      if w[i] == 0 && p == i {
        FromGap(buf, w, p, n);
        if i == 0 {
          buf := buf + [':'];
        } else {
          assert buf + "" == buf;
        }
        buf := buf + [':'];
        i := GapEnd(w, p, n);
        q, m := -1, 0;
      } else {
        assert i != q;
        FromWord(buf, w, i, q, m);
        buf := buf + Print(w[i], 16);
        if i != 7 {
          buf := buf + [':'];
        } else {
          assert buf + "" == buf;
        }
        i := i + 1;
      }
    }
    FromEnd(buf, w, i, q, m);
  }

  /**
   * evutil_inet_ntop for IPv6, with room for len characters: no text if there is not room enough, and the text less
   * its last character if there is just no room for the terminating zero.
   */
  method Ntop(w: seq<Word>, len: nat) returns (r: Delivered, ghost text: string)
    requires |w| == 8
    ensures IsText(text, w) && text != ""
    ensures r == if |text| > len then Null else if |text| == len then Text(text[..len - 1]) else Text(text)
  {
    hide Print, Quad, IsGap;
    var buf;
    if w[0] == 0 && w[1] == 0 && w[2] == 0 && w[3] == 0 && w[4] == 0 && ((w[5] == 0 && w[6] != 0 && w[7] != 0) || w[5] == 0xffff) {
      buf := V4Front(w) + Quad(w[6], w[7]);
    } else {
      var p, n := FindGap(w);
      GapFits(w, p, n);
      buf := PrintWords(w, p, n);
    }
    text := buf;
    if |buf| > len {
      return Null, text;
    }
    r := Text(if |buf| >= len then buf[..len - 1] else buf);
  }

  lemma GapFits(w: seq<Word>, p: int, n: nat)
    requires |w| == 8 && IsGap(w, p, n)
    ensures p < 0 || (p + n <= 8 && n > 0)
  {
  }

  /** Words are skipped as long as they are zero: that is to the end of the gap. */
  method GapEnd(w: seq<Word>, p: int, n: nat) returns (i: nat)
    requires |w| == 8 && p >= 0 && IsGap(w, p, n)
    ensures i == p + n
  {
    i := p;
    while i < 8 && w[i] == 0
      invariant p <= i <= 8 && Zeros(w, p, i)
    {
      i := i + 1;
    }
    assert Zeros(w, p, i) && (i < 8 ==> w[i] != 0);
  }

  // ---- Parsing

  datatype Words = Bad | Words(ws: seq<Word>, gap: int)

  /** The loop of evutil_inet_pton from k on, with the words read so far and the place of the gap, -1 for none. */
  function ParseFrom(t: string, eow: nat, k: nat, ws: seq<Word>, gap: int): Words
    requires eow <= |t|
    decreases eow - k
  {
    if k >= eow then Words(ws, gap)
    else if |ws| > 7 then Bad
    else if IsHex(t[k]) then
      var (r, next) := Strtol16(t, k);
      if next > k + 4 || r > 65536 || (next != eow && !(next < |t| && t[next] == ':')) then Bad
      else
        var word: Word := r % 0x1_0000;
        ParseFrom(t, eow, next + 1, ws + [word], gap)
    else if t[k] == ':' && ws != [] && gap == -1 then ParseFrom(t, eow, k + 1, ws, |ws|)
    else if t[k] == ':' && ws == [] && k + 1 < |t| && t[k + 1] == ':' && gap == -1 then ParseFrom(t, eow, k + 2, ws, 0)
    else Bad
  }

  datatype Address = Refused | Address(w: seq<Word>)

  /** The words and the quad put together, with zeros for the gap. */
  function Assemble(ws: seq<Word>, gap: int, quad: seq<Word>): Address
    requires gap <= |ws|
  {
    var set_ := |ws| + |quad|;
    if set_ > 8 || (set_ == 8 && gap != -1) || (set_ < 8 && gap == -1) then Refused
    else if gap < 0 then Address(ws + quad)
    else
      var zeros: seq<Word> := seq(8 - set_, _ => 0);
      Address(ws[..gap] + zeros + ws[gap..] + quad)
  }

  /** The index of the first dot, or the length. */
  function FirstDot(t: string, k: nat): (d: nat)
    requires k <= |t|
    ensures k <= d <= |t| && (d < |t| ==> t[d] == '.')
    decreases |t| - k
  {
    if k == |t| || t[k] == '.' then k else FirstDot(t, k + 1)
  }

  /** Where the digits before k begin. */
  function BackUp(t: string, k: nat): (e: nat)
    requires k <= |t|
    ensures e <= k
  {
    if k > 0 && IsDigit(t[k - 1]) then BackUp(t, k - 1) else k
  }

  predicate AllBytes(q: seq<int>)
  {
    forall i :: 0 <= i < |q| ==> 0 <= q[i] <= 255
  }

  lemma {:induction false} ParseGap(t: string, eow: nat, k: nat, ws: seq<Word>, gap: int)
    requires eow <= |t| && -1 <= gap <= |ws|
    ensures var o := ParseFrom(t, eow, k, ws, gap); o.Words? ==> -1 <= o.gap <= |o.ws|
    decreases eow - k
  {
    hide Strtol16, IsHex;
    if k < eow && |ws| <= 7 {
      if IsHex(t[k]) {
        var (r, next) := Strtol16(t, k);
        var word: Word := r % 0x1_0000;
        ParseGap(t, eow, next + 1, ws + [word], gap);
      } else {
        ParseGap(t, eow, k + 1, ws, |ws|);
        ParseGap(t, eow, k + 2, ws, 0);
      }
    }
  }

  /** What evutil_inet_pton makes of a text. */
  function Parse(t: string): Address
  {
    var dot := FirstDot(t, 0);
    var eow := if dot == |t| then |t| else BackUp(t, dot);
    var bytes := if dot == |t| then [] else ScanQuad(t, eow);
    if dot < |t| && (dot == 0 || bytes == [] || !AllBytes(bytes)) then Refused
    else
      var quad: seq<Word> := if dot == |t| then [] else [bytes[0] * 256 + bytes[1], bytes[2] * 256 + bytes[3]];
      ParseGap(t, eow, 0, [], -1);
      match ParseFrom(t, eow, 0, [], -1)
      case Bad => Refused
      case Words(ws, gap) => Assemble(ws, gap, quad)
  }

  // ---- A printed address is read back

  lemma ColonSplit(t: string, k: nat, a: string, b: string)
    requires Rest(t, k, Colon(a, b))
    ensures At(t, k, a) && k + |a| < |t| && t[k + |a|] == ':' && Rest(t, k + |a| + 1, b)
  {
    RestSplit(t, k, a, ':', b);
  }

  /** One word of n digits, and what follows its colon. */
  lemma ParseStep(t: string, eow: nat, k: nat, w: Word, n: nat, ws: seq<Word>, gap: int)
    requires eow <= |t| && k < |t| && IsHex(t[k]) && Strtol16(t, k) == (w, k + n) && n <= 4 && |ws| <= 7
    requires k < eow && (k + n == eow || (k + n < |t| && t[k + n] == ':'))
    ensures ParseFrom(t, eow, k, ws, gap) == ParseFrom(t, eow, k + n + 1, ws + [w], gap)
  {
    hide Strtol16;
  }

  lemma ParseWord(t: string, eow: nat, k: nat, w: Word, rest: string, ws: seq<Word>, gap: int)
    requires Rest(t, k, Colon(Print(w, 16), rest)) && |ws| <= 7 && k < eow <= |t|
    ensures var k' := k + |Print(w, 16)| + 1;
            ParseFrom(t, eow, k, ws, gap) == ParseFrom(t, eow, k', ws + [w], gap) && Rest(t, k', rest)
  {
    hide Print, Strtol16, Rest, At, Colon, ParseFrom;
    ColonSplit(t, k, Print(w, 16), rest);
    PrintShort(w);
    ReadsWord(t, k, w);
    ParseStep(t, eow, k, w, |Print(w, 16)|, ws, gap);
  }

  lemma ParseLast(t: string, k: nat, w: Word, ws: seq<Word>, gap: int)
    requires Rest(t, k, Print(w, 16)) && |ws| <= 7
    ensures ParseFrom(t, |t|, k, ws, gap) == Words(ws + [w], gap)
  {
    hide Print, Strtol16, Rest, At;
    RestAll(t, k, Print(w, 16));
    PrintShort(w);
    ReadsWord(t, k, w);
    ParseStep(t, |t|, k, w, |Print(w, 16)|, ws, gap);
  }

  lemma FromIs(w: seq<Word>, i: nat, p: int, n: nat)
    requires |w| == 8 && i <= 8 && (p < 0 || (i <= p && p + n <= 8 && n > 0))
    ensures i == 8 ==> From(w, i, p, n) == ""
    ensures i < 8 && i == p ==>
              From(w, i, p, n) == if i == 0 then Colon("", Colon("", From(w, p + n, -1, 0))) else Colon("", From(w, p + n, -1, 0))
    ensures i == 7 && i != p ==> From(w, i, p, n) == Print(w[i], 16)
    ensures i < 7 && i != p ==> From(w, i, p, n) == Colon(Print(w[i], 16), From(w, i + 1, p, n))
  {
  }

  lemma ParseDone(t: string, k: nat, ws: seq<Word>, gap: int)
    requires Rest(t, k, "")
    ensures ParseFrom(t, |t|, k, ws, gap) == Words(ws, gap)
  {
  }

  /** The words from i on, none left out. */
  lemma {:induction false} ParseTail(t: string, k: nat, w: seq<Word>, i: nat, ws: seq<Word>, gap: int)
    requires |w| == 8 && i <= 8 && |ws| <= i && Rest(t, k, From(w, i, -1, 0))
    ensures ParseFrom(t, |t|, k, ws, gap) == Words(ws + w[i..], gap)
    decreases 8 - i
  {
    hide *;
    FromIs(w, i, -1, 0);
    if i == 8 {
      ParseDone(t, k, ws, gap);
      assert ws + w[i..] == ws;
    } else if i == 7 {
      ParseLast(t, k, w[7], ws, gap);
      assert w[7..] == [w[7]];
    } else {
      var rest := From(w, i + 1, -1, 0);
      ColonSplit(t, k, Print(w[i], 16), rest);
      ParseWord(t, |t|, k, w[i], rest, ws, gap);
      ParseTail(t, k + |Print(w[i], 16)| + 1, w, i + 1, ws + [w[i]], gap);
      Shifted(ws, w, i);
    }
  }

  lemma Shifted(ws: seq<Word>, w: seq<Word>, i: nat)
    requires i < |w|
    ensures ws + [w[i]] + w[i + 1..] == ws + w[i..]
    ensures w[..i] + [w[i]] == w[..i + 1]
  {
  }

  /** The words from i on, the gap still to come. */
  lemma {:induction false} ParseFront(t: string, k: nat, w: seq<Word>, i: nat, p: nat, n: nat)
    requires |w| == 8 && i <= p && p + n <= 8 && n > 0 && Rest(t, k, From(w, i, p, n))
    ensures ParseFrom(t, |t|, k, w[..i], -1) == Words(w[..p] + w[p + n..], p)
    decreases p - i
  {
    hide *;
    FromIs(w, i, p, n);
    if i == p {
      ParseAtGap(t, k, w, p, n, From(w, p + n, -1, 0));
    } else {
      var rest := From(w, i + 1, p, n);
      ColonSplit(t, k, Print(w[i], 16), rest);
      ParseWord(t, |t|, k, w[i], rest, w[..i], -1);
      Shifted([], w, i);
      ParseFront(t, k + |Print(w[i], 16)| + 1, w, i + 1, p, n);
    }
  }

  lemma ParseAtGap(t: string, k: nat, w: seq<Word>, p: nat, n: nat, after: string)
    requires |w| == 8 && p + n <= 8 && n > 0 && after == From(w, p + n, -1, 0)
    requires Rest(t, k, if p == 0 then Colon("", Colon("", after)) else Colon("", after))
    ensures ParseFrom(t, |t|, k, w[..p], -1) == Words(w[..p] + w[p + n..], p)
  {
    hide *;
    if p == 0 {
      ColonSplit(t, k, "", Colon("", after));
      ColonSplit(t, k + 1, "", after);
      ParseTail(t, k + 2, w, n, [], 0);
      assert w[..p] == [];
    } else {
      ColonSplit(t, k, "", after);
      ParseTail(t, k + 1, w, p + n, w[..p], p);
    }
    GapStep(t, |t|, k, w[..p]);
  }

  lemma GapStep(t: string, eow: nat, k: nat, ws: seq<Word>)
    requires k < eow <= |t| && t[k] == ':' && (ws == [] ==> k + 1 < |t| && t[k + 1] == ':')
    ensures ParseFrom(t, eow, k, ws, -1) ==
              if |ws| > 7 then Bad else if ws == [] then ParseFrom(t, eow, k + 2, ws, 0) else ParseFrom(t, eow, k + 1, ws, |ws|)
  {
  }

  lemma PrintNoDot(n: nat, base: nat)
    requires base == 10 || base == 16
    ensures '.' !in Print(n, base)
  {
    PrintDigits(n, base);
  }

  lemma ColonNoDot(a: string, b: string)
    requires '.' !in a && '.' !in b
    ensures '.' !in Colon(a, b)
  {
  }

  lemma {:induction false} FromNoDot(w: seq<Word>, i: nat, p: int, n: nat)
    requires |w| == 8 && i <= 8 && (p < 0 || (i <= p && p + n <= 8 && n > 0))
    ensures '.' !in From(w, i, p, n)
    decreases 8 - i, p >= 0
  {
    hide *;
    FromIs(w, i, p, n);
    if i == p {
      var after := From(w, p + n, -1, 0);
      FromNoDot(w, p + n, -1, 0);
      ColonNoDot("", after);
      ColonNoDot("", Colon("", after));
    } else if i < 8 {
      PrintNoDot(w[i], 16);
      if i < 7 {
        FromNoDot(w, i + 1, p, n);
        ColonNoDot(Print(w[i], 16), From(w, i + 1, p, n));
      }
    }
  }

  lemma {:induction false} NoFirstDot(t: string, k: nat)
    requires k <= |t| && '.' !in t
    ensures FirstDot(t, k) == |t|
    decreases |t| - k
  {
    if k < |t| { NoFirstDot(t, k + 1); }
  }

  lemma {:induction false} FirstDotAt(t: string, k: nat, d: nat)
    requires k <= d < |t| && t[d] == '.' && '.' !in t[k..d]
    ensures FirstDot(t, k) == d
    decreases d - k
  {
    if k < d {
      assert t[k..d] == [t[k]] + t[k + 1..d];
      FirstDotAt(t, k + 1, d);
    }
  }

  lemma {:induction false} BackUpTo(t: string, e: nat, k: nat)
    requires 0 < e <= k <= |t| && !IsDigit(t[e - 1]) && Digits(t[e..k], 10)
    ensures BackUp(t, k) == e
    decreases k - e
  {
    if e < k {
      var long, short := t[e..k], t[e..k - 1];
      assert long[k - 1 - e] == t[k - 1] && IsDigit(t[k - 1]);
      forall i | 0 <= i < |short| ensures IsDigit(short[i]) { assert short[i] == long[i]; }
      BackUpTo(t, e, k - 1);
    }
  }

  lemma ParseIs(t: string, ws: seq<Word>, gap: int)
    requires FirstDot(t, 0) == |t| && ParseFrom(t, |t|, 0, [], -1) == Words(ws, gap) && gap <= |ws|
    ensures Parse(t) == Assemble(ws, gap, [])
  {
    hide ParseFrom, Assemble, FirstDot;
  }

  lemma AssembleAll(w: seq<Word>)
    requires |w| == 8
    ensures Assemble(w, -1, []) == Address(w)
  {
    assert w + [] == w;
  }

  lemma AssembleGap(w: seq<Word>, p: nat, n: nat)
    requires |w| == 8 && p + n <= 8 && n > 0 && Zeros(w, p, p + n)
    ensures Assemble(w[..p] + w[p + n..], p, []) == Address(w)
  {
    var ws := w[..p] + w[p + n..];
    var zeros: seq<Word> := seq(n, _ => 0);
    assert ws[..p] == w[..p] && ws[p..] == w[p + n..];
    assert w[p..p + n] == zeros;
    assert w[..p] + zeros + w[p + n..] + [] == w;
  }

  /** A text without a quad. */
  lemma PlainRoundTrip(t: string, w: seq<Word>, p: int, n: nat)
    requires |w| == 8 && IsGap(w, p, n) && p >= -1 && (p < 0 || (p + n <= 8 && n > 0)) && t == From(w, 0, p, n)
    ensures Parse(t) == Address(w)
  {
    hide *;
    FromNoDot(w, 0, p, n);
    NoFirstDot(t, 0);
    RestWhole(t);
    assert w[..0] == [] && w[0..] == w && [] + w == w;
    if p < 0 {
      SameFrom(w, 0, p, n);
      ParseTail(t, 0, w, 0, [], -1);
      ParseIs(t, w, -1);
      AssembleAll(w);
    } else {
      ParseFront(t, 0, w, 0, p, n);
      ParseIs(t, w[..p] + w[p + n..], p);
      GapZeros(w, p, n);
      AssembleGap(w, p, n);
    }
  }

  lemma RestWhole(t: string)
    ensures Rest(t, 0, t)
  {
  }

  lemma GapZeros(w: seq<Word>, p: nat, n: nat)
    requires |w| == 8 && IsGap(w, p, n)
    ensures p + n <= 8 && Zeros(w, p, p + n)
  {
  }

  lemma {:induction false} SameFrom(w: seq<Word>, i: nat, p: int, n: nat)
    requires |w| == 8 && p < 0 && i <= 8
    ensures From(w, i, p, n) == From(w, i, -1, 0)
    decreases 8 - i
  {
    if i < 8 { SameFrom(w, i + 1, p, n); }
  }

  lemma ParseWithQuad(t: string, dot: nat, eow: nat, bytes: seq<int>, ws: seq<Word>, gap: int, quad: seq<Word>)
    requires FirstDot(t, 0) == dot && 0 < dot < |t| && BackUp(t, dot) == eow && ScanQuad(t, eow) == bytes
    requires |bytes| == 4 && AllBytes(bytes) && quad == [bytes[0] * 256 + bytes[1], bytes[2] * 256 + bytes[3]]
    requires ParseFrom(t, eow, 0, [], -1) == Words(ws, gap) && gap <= |ws|
    ensures Parse(t) == Assemble(ws, gap, quad)
  {
    hide ParseFrom, Assemble, FirstDot, BackUp, ScanQuad;
  }

  /** The dot and the end of the words in a text with a quad. */
  lemma QuadPlace(t: string, front: string, a: nat, rest: string)
    requires t == front + (Print(a, 10) + (['.'] + rest)) && front != "" && front[|front| - 1] == ':' && '.' !in front
    ensures var dot := |front| + |Print(a, 10)|;
            dot < |t| && FirstDot(t, 0) == dot && BackUp(t, dot) == |front|
  {
    var pa := Print(a, 10);
    var dot := |front| + |pa|;
    PrintNoDot(a, 10);
    PrintDigits(a, 10);
    assert t[..dot] == front + pa && t[0..dot] == t[..dot] && t[dot] == '.';
    assert t[|front|..dot] == pa && t[|front| - 1] == ':';
    FirstDotAt(t, 0, dot);
    BackUpTo(t, |front|, dot);
  }

  lemma QuadWords(w6: Word, w7: Word)
    ensures var bytes: seq<int> := [w6 / 256, w6 % 256, w7 / 256, w7 % 256];
            AllBytes(bytes) && bytes[0] * 256 + bytes[1] == w6 && bytes[2] * 256 + bytes[3] == w7
  {
  }

  lemma AssembleV4(w: seq<Word>)
    requires |w| == 8 && IsV4(w)
    ensures Assemble(if w[5] == 0 then [] else [w[5]], 0, [w[6], w[7]]) == Address(w)
  {
    var z: seq<Word> := if w[5] == 0 then seq(6, _ => 0) else seq(5, _ => 0);
    var ws: seq<Word> := if w[5] == 0 then [] else [w[5]];
    assert ws[..0] == [] && ws[0..] == ws;
    assert [] + z + ws + [w[6], w[7]] == w;
  }

  lemma V4FrontIs(t: string, w: seq<Word>, quad: string)
    requires |w| == 8 && t == V4Front(w) + quad
    ensures var f := V4Front(w);
            && 2 <= |f| <= |t| && f[|f| - 1] == ':' && '.' !in f && Rest(t, |f|, quad) && t[0] == ':' && t[1] == ':'
            && (w[5] == 0 ==> |f| == 2)
            && (w[5] != 0 ==> |f| == 3 + |Print(w[5], 16)| && Rest(t, 2, Colon(Print(w[5], 16), quad)))
  {
    var front := V4Front(w);
    assert t[|front|..] == quad;
    assert t[0] == front[0] == ':' && t[1] == front[1] == ':';
    PrintNoDot(w[5], 16);
    if w[5] != 0 {
      var word := Print(w[5], 16);
      assert front == [':', ':'] + word + [':'];
      assert t == [':', ':'] + (word + ([':'] + quad));
      assert t[2..] == Colon(word, quad);
    }
  }

  /** The words before a quad. */
  lemma V4Words(t: string, w: seq<Word>, quad: string)
    requires |w| == 8 && t == V4Front(w) + quad
    ensures |V4Front(w)| <= |t| && ParseFrom(t, |V4Front(w)|, 0, [], -1) == Words(if w[5] == 0 then [] else [w[5]], 0)
  {
    hide *;
    V4FrontIs(t, w, quad);
    var e := |V4Front(w)|;
    GapStep(t, e, 0, []);
    if w[5] != 0 {
      ParseWord(t, e, 2, w[5], quad, [], 0);
      assert [] + [w[5]] == [w[5]];
      AtEnd(t, e, [w[5]], 0);
    } else {
      AtEnd(t, e, [], 0);
    }
  }

  lemma AtEnd(t: string, k: nat, ws: seq<Word>, gap: int)
    requires k <= |t|
    ensures ParseFrom(t, k, k, ws, gap) == Words(ws, gap)
  {
  }

  lemma QuadRoundTrip(t: string, w: seq<Word>)
    requires |w| == 8 && IsV4(w) && t == V4Front(w) + Quad(w[6], w[7])
    ensures Parse(t) == Address(w)
  {
    hide *;
    var front, quad := V4Front(w), Quad(w[6], w[7]);
    V4Words(t, w, quad);
    V4FrontIs(t, w, quad);
    QuadIs(w[6], w[7]);
    QuadPlace(t, front, w[6] / 256, Dotted3(w[6] % 256, w[7] / 256, w[7] % 256));
    ReadsFour(t, |front|, w[6] / 256, w[6] % 256, w[7] / 256, w[7] % 256);
    QuadWords(w[6], w[7]);
    var bytes: seq<int> := [w[6] / 256, w[6] % 256, w[7] / 256, w[7] % 256];
    ParseWithQuad(t, |front| + |Print(w[6] / 256, 10)|, |front|, bytes, if w[5] == 0 then [] else [w[5]], 0, [w[6], w[7]]);
    AssembleV4(w);
  }

  lemma QuadIs(w6: Word, w7: Word)
    ensures Quad(w6, w7) == Dotted(w6 / 256, w6 % 256, w7 / 256, w7 % 256)
    ensures Quad(w6, w7) == Print(w6 / 256, 10) + (['.'] + Dotted3(w6 % 256, w7 / 256, w7 % 256))
  {
  }

  /** Every printed address is read back, all 2^128 of them. */
  lemma RoundTrip(t: string, w: seq<Word>)
    requires |w| == 8 && IsText(t, w)
    ensures Parse(t) == Address(w)
  {
    if IsV4(w) {
      QuadRoundTrip(t, w);
    } else {
      var p, n: nat :| p >= -1 && IsGap(w, p, n) && (p < 0 || (p + n <= 8 && n > 0)) && t == From(w, 0, p, n);
      PlainRoundTrip(t, w, p, n);
    }
  }

  /** evutil_inet_pton for IPv6. */
  method Pton(t: string) returns (r: Address)
    ensures r == Parse(t)
  {
    hide ParseFrom, Assemble, ScanQuad, Strtol16;
    var dot := 0;
    while dot < |t| && t[dot] != '.'
      invariant 0 <= dot <= |t| && FirstDot(t, 0) == FirstDot(t, dot)
    {
      dot := dot + 1;
    }
    assert FirstDot(t, dot) == dot;
    var eow, quad: seq<Word> := |t|, [];
    if dot < |t| {
      if dot == 0 {
        return Refused;
      }
      eow := dot;
      while eow > 0 && IsDigit(t[eow - 1])
        invariant 0 <= eow <= dot && BackUp(t, dot) == BackUp(t, eow)
      {
        eow := eow - 1;
      }
      assert BackUp(t, eow) == eow;
      var bytes := ScanQuad(t, eow);
      if bytes == [] || !AllBytes(bytes) {
        return Refused;
      }
      quad := [bytes[0] * 256 + bytes[1], bytes[2] * 256 + bytes[3]];
    }
    ParseGap(t, eow, 0, [], -1);
    var words := ReadWords(t, eow);
    match words
    case Bad => r := Refused;
    case Words(ws, gap) => r := Assemble(ws, gap, quad);
  }

  /** Its loop over the words. */
  method ReadWords(t: string, eow: nat) returns (o: Words)
    requires eow <= |t|
    ensures o == ParseFrom(t, eow, 0, [], -1)
  {
    hide Strtol16;
    var k, ws: seq<Word>, gap := 0, [], -1;
    while k < eow
      invariant 0 <= k && ParseFrom(t, eow, 0, [], -1) == ParseFrom(t, eow, k, ws, gap)
      decreases eow - k
    {
      if |ws| > 7 {
        return Bad;
      }
      if IsHex(t[k]) {
        var (r, next) := Strtol16(t, k);
        if next > k + 4 || r > 65536 || (next != eow && !(next < |t| && t[next] == ':')) {
          return Bad;
        }
        ws := ws + [r % 0x1_0000];
        k := next + 1;
      } else if t[k] == ':' && ws != [] && gap == -1 {
        gap := |ws|;
        k := k + 1;
      } else if t[k] == ':' && ws == [] && k + 1 < |t| && t[k + 1] == ':' && gap == -1 {
        gap := 0;
        k := k + 2;
      } else {
        return Bad;
      }
    }
    o := Words(ws, gap);
  }

  /** Printed with room for the terminating zero and parsed again, an address is what it was. */
  method PrintAndParse(w: seq<Word>, len: nat) returns (r: Address, ghost text: string)
    requires |w| == 8
    ensures IsText(text, w) && (|text| < len ==> r == Address(w))
  {
    hide IsText;
    var d;
    d, text := Ntop(w, len);
    RoundTrip(text, w);
    match d
    case Null => r := Refused;
    case Text(s) => r := Pton(s);
  }
}
