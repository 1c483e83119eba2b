/** What evutil_inet_pton accepts, of texts that end in a dotted quad too. */
module Inet6Quads {
  import opened Inet6
  import opened Inet6Parts

  /** Four numbers from 0 to 255 as sscanf reads them, the first of which begins with a digit; blanks may precede the others. */
  predicate IsQuad(q: string)
  {
    q != "" && IsDigit(q[0]) && ScanQuad(q, 0) != [] && AllBytes(ScanQuad(q, 0))
  }

  /** Four bytes make two words. */
  function TwoWords(b: seq<int>): (ws: seq<Word>)
    requires |b| == 4 && AllBytes(b)
  {
    [b[0] * 256 + b[1], b[2] * 256 + b[3]]
  }

  function QuadOf(q: string): seq<Word>
    requires IsQuad(q)
  {
    TwoWords(ScanQuad(q, 0))
  }

  // ---- The last part

  function LastStart(t: string, k: nat): (s: nat)
    requires k <= |t|
    ensures k <= s <= |t| && (s == k || t[s - 1] == ':') && forall i :: s <= i < |t| ==> t[i] != ':'
    decreases |t| - k
  {
    var e := ColonFrom(t, k);
    if e == |t| then k else LastStart(t, e + 1)
  }

  lemma {:induction false} ColonFront(t: string, k: nat, n: nat)
    requires k <= n <= |t|
    ensures ColonFrom(t[..n], k) == if ColonFrom(t, k) < n then ColonFrom(t, k) else n
    decreases n - k
  {
    if k < n && t[k] != ':' { ColonFront(t, k + 1, n); }
  }

  lemma LastStep(t: string, k: nat)
    requires k <= |t|
    ensures var e, s := ColonFrom(t, k), LastStart(t, k); if e == |t| then s == k else s == LastStart(t, e + 1) > e
  {
  }

  lemma Spliced(a: string, rest: seq<string>)
    requires rest != []
    ensures ([a] + rest)[|rest|] == rest[|rest| - 1] && ([a] + rest)[..|rest|] + [""] == [a] + (rest[..|rest| - 1] + [""])
  {
  }

  lemma OnePart(t: string, k: nat)
    requires k <= |t|
    ensures t[..k][k..k] == "" && t[k..|t|] == t[k..] && [t[k..]][..0] + [""] == [""]
  {
  }

  lemma FirstPart(t: string, k: nat, e: nat, s: nat)
    requires k <= e <= s <= |t|
    ensures t[..s][k..e] == t[k..e]
  {
  }

  /** Without its last part, a text leaves that part empty. */
  lemma {:induction false} FrontParts(t: string, k: nat)
    requires k <= |t|
    ensures var s := LastStart(t, k); var ps := Parts(t, k);
            ps[|ps| - 1] == t[s..] && Parts(t[..s], k) == ps[..|ps| - 1] + [""]
    decreases |t| - k
  {
    hide *;
    var e, s := ColonFrom(t, k), LastStart(t, k);
    LastStep(t, k);
    PartsAre(t, k);
    PartsAre(t[..s], k);
    ColonFront(t, k, s);
    if e == |t| {
      OnePart(t, k);
    } else {
      FrontParts(t, e + 1);
      FirstPart(t, k, e, s);
      Spliced(t[k..e], Parts(t, e + 1));
    }
  }

  // ---- Reading numbers does not look back

  lemma {:induction false} BlanksShift(t: string, s: nat, k: nat)
    requires s <= k <= |t|
    ensures SkipBlanks(t, k) == s + SkipBlanks(t[s..], k - s)
    decreases |t| - k
  {
    if k < |t| && IsBlank(t[k]) { BlanksShift(t, s, k + 1); }
  }

  lemma {:induction false} DigitsShift(t: string, s: nat, k: nat)
    requires s <= k <= |t|
    ensures DigitRun(t, k) == DigitRun(t[s..], k - s)
    decreases |t| - k
  {
    if k < |t| && IsDigit(t[k]) { DigitsShift(t, s, k + 1); }
  }

  lemma ScanShift(t: string, s: nat, k: nat)
    requires s <= k <= |t|
    ensures ScanInt(t, k) == Along(ScanInt(t[s..], k - s), s)
  {
    hide SkipBlanks, DigitRun, ValueOf;
    BlanksShift(t, s, k);
    var b := SkipBlanks(t, k);
    var d := if b < |t| && (t[b] == '-' || t[b] == '+') then b + 1 else b;
    assert b < |t| ==> t[b] == t[s..][b - s];
    DigitsShift(t, s, d);
    var n := DigitRun(t, d);
    assert t[d..d + n] == t[s..][d - s..d - s + n];
  }

  /** The text goes on with a dot after a number. */
  predicate Dot(t: string, r: Scan)
  {
    r.Number? && r.next < |t| && t[r.next] == '.'
  }

  /** The number after r's dot. */
  function Next(t: string, r: Scan): (r': Scan)
    ensures r'.Number? ==> r'.next <= |t|
  {
    if Dot(t, r) then ScanInt(t, r.next + 1) else NoNumber
  }

  lemma ScanQuadNext(t: string, k: nat)
    ensures var a := ScanInt(t, k); var b := Next(t, a); var c := Next(t, b); var d := Next(t, c);
            ScanQuad(t, k) == if d.Number? && d.next == |t| then [a.v, b.v, c.v, d.v] else []
  {
    hide ScanInt;
  }

  function Along(r: Scan, s: nat): Scan
  {
    if r.NoNumber? then NoNumber else Number(r.v, r.next + s)
  }

  lemma NextShift(t: string, s: nat, r: Scan)
    requires s <= |t| && (r.Number? ==> r.next <= |t| - s)
    ensures Next(t, Along(r, s)) == Along(Next(t[s..], r), s)
  {
    hide ScanInt;
    if Dot(t[s..], r) { ScanShift(t, s, r.next + s + 1); }
  }

  lemma QuadShift(t: string, s: nat)
    requires s <= |t|
    ensures ScanQuad(t, s) == ScanQuad(t[s..], 0)
  {
    hide ScanInt, ScanQuad, Next;
    var u := t[s..];
    ScanQuadNext(t, s);
    ScanQuadNext(u, 0);
    ScanShift(t, s, s);
    var a := ScanInt(u, 0);
    NextShift(t, s, a);
    NextShift(t, s, Next(u, a));
    NextShift(t, s, Next(u, Next(u, a)));
  }

  // ---- A quad has no colon in it

  lemma {:induction false} BlanksOnly(t: string, k: nat)
    ensures forall i :: k <= i < SkipBlanks(t, k) ==> i < |t| && IsBlank(t[i])
    decreases |t| - k
  {
    if k < |t| && IsBlank(t[k]) {
      BlanksOnly(t, k + 1);
      forall i | k <= i < SkipBlanks(t, k) ensures i < |t| && IsBlank(t[i]) {
        if i > k { assert k + 1 <= i < SkipBlanks(t, k + 1); }
      }
    } else {
      assert SkipBlanks(t, k) == k;
    }
  }

  ghost predicate NoColon(t: string, k: nat, n: nat)
  {
    forall i :: k <= i < n ==> i < |t| && t[i] != ':'
  }

  lemma ScanNoColon(t: string, k: nat)
    ensures var r := ScanInt(t, k); r.Number? ==> k <= r.next && NoColon(t, k, r.next)
  {
    hide SkipBlanks, ValueOf;
    BlanksOnly(t, k);
    var b := SkipBlanks(t, k);
    var d := if b < |t| && (t[b] == '-' || t[b] == '+') then b + 1 else b;
    var n := DigitRun(t, d);
    hide DigitRun;
    if d <= |t| && n > 0 {
      assert forall i :: d <= i < d + n ==> IsDigit(t[i]);
    }
  }

  lemma NextNoColon(t: string, k: nat, r: Scan)
    requires r.Number? ==> k <= r.next && NoColon(t, k, r.next)
    ensures var r' := Next(t, r); r'.Number? ==> k <= r'.next && NoColon(t, k, r'.next)
  {
    hide ScanInt;
    if Dot(t, r) { ScanNoColon(t, r.next + 1); }
  }

  lemma QuadNoColon(t: string, k: nat)
    requires ScanQuad(t, k) != []
    ensures NoColon(t, k, |t|)
  {
    hide ScanInt, ScanQuad, Next, NoColon, Dot;
    ScanQuadNext(t, k);
    ScanNoColon(t, k);
    var a := ScanInt(t, k);
    NextNoColon(t, k, a);
    NextNoColon(t, k, Next(t, a));
    NextNoColon(t, k, Next(t, Next(t, a)));
  }

  // ---- A part with a dot in it is not a word

  lemma WordNoDot(s: string)
    requires IsWord(s)
    ensures '.' !in s
  {
    var from := SkipPrefix(s, 0);
    assert HexRun(s, from) == |s| - from;
    forall i | 0 <= i < |s| ensures s[i] != '.' {
      assert i >= from ==> IsHex(s[i]);
    }
  }

  lemma {:induction false} TailBad(ps: seq<string>, i: nat)
    requires i < |ps| && '.' in ps[i]
    ensures Tail(ps).None?
  {
    TailStep(ps);
    hide IsWord, WordOf, Tail;
    if i == 0 {
      if IsWord(ps[0]) { WordNoDot(ps[0]); }
    } else {
      TailBad(ps[1..], i - 1);
    }
  }

  lemma {:induction false} BodyBad(ps: seq<string>, n: nat, i: nat)
    requires i < |ps| && '.' in ps[i]
    ensures Body(ps, n).Bad?
  {
    BodyStep(ps, n);
    hide IsWord, WordOf, Tail, Body;
    if i == 0 {
      if IsWord(ps[0]) { WordNoDot(ps[0]); }
    } else {
      BodyBad(ps[1..], n + 1, i - 1);
      TailBad(ps[1..], i - 1);
    }
  }

  lemma WholeBad(ps: seq<string>, i: nat)
    requires i < |ps| && '.' in ps[i]
    ensures Whole(ps).Bad?
  {
    BodyBad(ps, 0, i);
    hide Body, Tail;
    if i >= 2 { TailBad(ps[2..], i - 2); }
  }

  lemma {:induction false} DotInPart(t: string, k: nat, d: nat) returns (i: nat)
    requires k <= d < |t| && t[d] == '.'
    ensures i < |Parts(t, k)| && '.' in Parts(t, k)[i]
    decreases |t| - k
  {
    hide *;
    PartsStep(t, k);
    var e := ColonFrom(t, k);
    if d < e {
      i := 0;
      assert t[k..e][d - k] == '.';
    } else {
      var i' := DotInPart(t, e + 1, d);
      i := i' + 1;
      assert Parts(t, k)[i] == Parts(t, k)[1..][i'];
    }
  }

  // ---- The loop stops at the last part

  /** It reads no further than the colon in front of it. */
  lemma {:induction false} FrontParse(t: string, s: nat, k: nat, ws: seq<Word>, gap: int)
    requires s < |t| && (s > 0 ==> t[s - 1] == ':') && t[s] != ':'
    ensures ParseFrom(t, s, k, ws, gap) == ParseFrom(t[..s], s, k, ws, gap)
    decreases s - k
  {
    hide Strtol16, IsHex;
    if k < s && |ws| <= 7 {
      var f := t[..s];
      assert f[k] == t[k];
      if IsHex(t[k]) {
        SameStrtol(t, s, k);
        var (r, next) := Strtol16(t, k);
        FrontParse(t, s, next + 1, ws + [r % 0x1_0000], gap);
      } else {
        FrontParse(t, s, k + 1, ws, |ws|);
        FrontParse(t, s, k + 2, ws, 0);
      }
    }
  }

  lemma SameStrtol(t: string, s: nat, k: nat)
    requires k < s < |t| && t[s - 1] == ':' && IsHex(t[k])
    ensures Strtol16(t[..s], k) == Strtol16(t, k) && Strtol16(t, k).1 < s
  {
    hide Strtol16;
    var e := ColonFrom(t, k);
    FirstPart(t, k, e, s);
    StrtolPart(t, k, e);
    StrtolPart(t[..s], k, e);
  }

  /** Letters between the last colon and the first digit of the quad are never read as a word. */
  lemma {:induction false} LettersBad(t: string, e: nat, dot: nat, k: nat, ws: seq<Word>, gap: int)
    requires k < e < dot < |t| && t[dot] == '.' && t[e - 1] != ':' && !IsDigit(t[e - 1])
    requires forall i :: e <= i < dot ==> IsDigit(t[i])
    ensures ParseFrom(t, e, k, ws, gap) == Bad
    decreases e - k
  {
    hide Strtol16;
    if |ws| <= 7 {
      if IsHex(t[k]) {
        StrtolStops(t, e, dot, k);
        var (r, next) := Strtol16(t, k);
        if next < e && t[next] == ':' {
          LettersBad(t, e, dot, next + 1, ws + [r % 0x1_0000], gap);
        }
      } else if t[k] == ':' {
        LettersBad(t, e, dot, k + 1, ws, |ws|);
        if t[k + 1] == ':' { LettersBad(t, e, dot, k + 2, ws, 0); }
      }
    }
  }

  lemma StrtolStops(t: string, e: nat, dot: nat, k: nat)
    requires k < e < dot < |t| && t[dot] == '.' && IsHex(t[k]) && !IsDigit(t[e - 1])
    requires forall i :: e <= i < dot ==> IsDigit(t[i])
    ensures var next := Strtol16(t, k).1; next < e || next == dot
  {
    var from := SkipPrefix(t, k);
    RunEnds(t, from);
    hide HexRun, ValueOf;
    var next := Strtol16(t, k).1;
    assert from <= e;
    assert next <= dot by {
      assert forall i :: from <= i < next ==> IsHex(t[i]);
    }
  }

  lemma {:induction false} RunEnds(t: string, k: nat)
    ensures var n := HexRun(t, k); k + n < |t| ==> !IsHex(t[k + n])
    decreases |t| - k
  {
    if k < |t| && IsHex(t[k]) { RunEnds(t, k + 1); }
  }

  // ---- All texts

  lemma {:induction false} FirstDotFirst(t: string, k: nat)
    requires k <= |t|
    ensures var d := FirstDot(t, k); (forall i :: k <= i < d ==> t[i] != '.') && (d < |t| <==> '.' in t[k..])
    decreases |t| - k
  {
    if k < |t| && t[k] != '.' {
      FirstDotFirst(t, k + 1);
      assert t[k..] == [t[k]] + t[k + 1..];
    }
  }

  lemma {:induction false} BackUpDigits(t: string, k: nat)
    requires k <= |t|
    ensures var e := BackUp(t, k); (forall i :: e <= i < k ==> IsDigit(t[i])) && (e > 0 ==> !IsDigit(t[e - 1]))
  {
    if k > 0 && IsDigit(t[k - 1]) { BackUpDigits(t, k - 1); }
  }

  lemma NoQuadRefused(t: string)
    requires FirstDot(t, 0) < |t|
    ensures var dot := FirstDot(t, 0); var b := ScanQuad(t, BackUp(t, dot));
            dot == 0 || b == [] || !AllBytes(b) ==> Parse(t) == Refused
  {
    hide ParseFrom, ScanQuad, FirstDot, BackUp, Assemble;
  }

  lemma WordsRefused(t: string)
    requires FirstDot(t, 0) < |t|
    ensures ParseFrom(t, BackUp(t, FirstDot(t, 0)), 0, [], -1).Bad? ==> Parse(t) == Refused
  {
    hide ParseFrom, ScanQuad, FirstDot, BackUp, Assemble, AllBytes;
  }

  lemma AddressIs(o: Words, quad: seq<Word>)
    requires o.Words? ==> o.gap <= |o.ws|
    ensures AddressOf(o, quad) == if o.Bad? then Refused else Assemble(o.ws, o.gap, quad)
  {
    hide Assemble;
  }

  lemma TwoWordsAre(b: seq<int>)
    requires |b| == 4 && AllBytes(b)
    ensures 0 <= b[0] * 256 + b[1] < 0x1_0000 && 0 <= b[2] * 256 + b[3] < 0x1_0000
    ensures TwoWords(b) == [b[0] * 256 + b[1], b[2] * 256 + b[3]]
  {
  }

  lemma QuadTaken(t: string, dot: nat, e: nat, b: seq<int>)
    requires FirstDot(t, 0) == dot && 0 < dot < |t| && BackUp(t, dot) == e && ScanQuad(t, e) == b
    requires |b| == 4 && AllBytes(b)
    ensures Parse(t) == AddressOf(ParseFrom(t, e, 0, [], -1), TwoWords(b))
  {
    hide *;
    WordsRefused(t);
    ParseGap(t, e, 0, [], -1);
    var o := ParseFrom(t, e, 0, [], -1);
    TwoWordsAre(b);
    AddressIs(o, TwoWords(b));
    if o.Words? {
      ParseWithQuad(t, dot, e, b, o.ws, o.gap, TwoWords(b));
    }
  }

  lemma DotIsNoQuad(t: string, k: nat)
    requires k < |t| && t[k] == '.'
    ensures ScanQuad(t, k) == []
  {
    hide ValueOf;
    assert ScanInt(t, k).NoNumber?;
    ScanQuadNext(t, k);
  }

  /** A number that something other than a dot follows begins no quad. */
  lemma NotADot(q: string, e: nat)
    requires 0 < e < |q| && !IsDigit(q[e - 1]) && forall i :: 0 <= i < e ==> q[i] != '.'
    ensures !IsQuad(q)
  {
    if IsDigit(q[0]) {
      var a := ScanInt(q, 0);
      assert SkipBlanks(q, 0) == 0;
      hide ValueOf, SkipBlanks;
      DigitsEnd(q, 0, e - 1);
      hide DigitRun, ScanInt;
      assert !Dot(q, a);
      ScanQuadNext(q, 0);
    }
  }

  lemma {:induction false} DigitsEnd(q: string, k: nat, e: nat)
    requires k <= e < |q| && !IsDigit(q[e])
    ensures k + DigitRun(q, k) <= e
    decreases e - k
  {
    if k < e && IsDigit(q[k]) { DigitsEnd(q, k + 1, e); }
  }

  /** The address of parts, the last of which is a quad. */
  function DottedAddress(ps: seq<string>): Address
    requires ps != []
  {
    var n := |ps| - 1;
    if !IsQuad(ps[n]) then Refused else AddressOf(Whole(ps[..n] + [""]), QuadOf(ps[n]))
  }

  /** The first dot is not in the last part. */
  lemma DotBefore(t: string)
    requires FirstDot(t, 0) < LastStart(t, 0)
    ensures Parse(t) == Refused == DottedAddress(Parts(t, 0))
  {
    hide *;
    var dot, s := FirstDot(t, 0), LastStart(t, 0);
    ColonThere(t, BackUp(t, dot), s - 1);
    NoQuadRefused(t);
    FrontParts(t, 0);
    DotInFront(t, dot, s);
    BadRefused(Parts(t, 0));
  }

  lemma DotInFront(t: string, dot: nat, s: nat)
    requires dot < s <= |t| && t[dot] == '.'
    ensures Whole(Parts(t[..s], 0)).Bad?
  {
    hide *;
    assert t[..s][dot] == '.';
    var i := DotInPart(t[..s], 0, dot);
    WholeBad(Parts(t[..s], 0), i);
  }

  lemma ColonThere(t: string, k: nat, i: nat)
    requires k <= i < |t| && t[i] == ':'
    ensures ScanQuad(t, k) == []
  {
    hide ScanQuad;
    if ScanQuad(t, k) != [] { QuadNoColon(t, k); }
  }

  lemma BadRefused(ps: seq<string>)
    requires ps != [] && Whole(ps[..|ps| - 1] + [""]).Bad?
    ensures DottedAddress(ps) == Refused
  {
    hide Whole, IsQuad, QuadOf;
  }

  /** The digits before the first dot begin the last part. */
  lemma QuadLast(t: string)
    requires var dot := FirstDot(t, 0); dot < |t| && BackUp(t, dot) == LastStart(t, 0)
    ensures Parse(t) == DottedAddress(Parts(t, 0))
  {
    hide *;
    var dot, s := FirstDot(t, 0), LastStart(t, 0);
    var q := t[s..];
    FrontParts(t, 0);
    QuadShift(t, s);
    NoQuadRefused(t);
    BackUpDigits(t, dot);
    QuadIff(t, s, dot);
    if IsQuad(q) {
      QuadTaken(t, dot, s, ScanQuad(t, s));
      FrontParse(t, s, 0, [], -1);
      WholeParse(t[..s]);
      WholeGap(Parts(t[..s], 0));
      ReachedSame(Whole(Parts(t[..s], 0)), QuadOf(q));
      QuadIs(q);
    }
    DottedIs(Parts(t, 0));
  }

  lemma QuadIs(q: string)
    requires IsQuad(q)
    ensures ScanQuad(q, 0) != [] && AllBytes(ScanQuad(q, 0)) && QuadOf(q) == TwoWords(ScanQuad(q, 0))
  {
  }

  lemma DottedIs(ps: seq<string>)
    requires ps != []
    ensures var n := |ps| - 1;
            DottedAddress(ps) == if !IsQuad(ps[n]) then Refused else AddressOf(Whole(ps[..n] + [""]), QuadOf(ps[n]))
  {
  }

  lemma QuadIff(t: string, s: nat, dot: nat)
    requires s <= dot < |t| && t[dot] == '.' && (forall i :: s <= i < dot ==> IsDigit(t[i])) && ScanQuad(t, s) == ScanQuad(t[s..], 0)
    ensures var b := ScanQuad(t, s); IsQuad(t[s..]) <==> dot > 0 && b != [] && AllBytes(b)
    ensures IsQuad(t[s..]) ==> s < dot && t[s] != ':'
  {
    hide ScanQuad, AllBytes;
    if s == dot { DotIsNoQuad(t, s); }
    assert t[s..][0] == t[s];
  }

  /** Something else comes between the last colon and those digits. */
  lemma LettersFirst(t: string)
    requires var dot := FirstDot(t, 0); dot < |t| && BackUp(t, dot) > LastStart(t, 0)
    ensures Parse(t) == Refused == DottedAddress(Parts(t, 0))
  {
    hide *;
    var dot, s := FirstDot(t, 0), LastStart(t, 0);
    var e := BackUp(t, dot);
    BackUpDigits(t, dot);
    FirstDotFirst(t, 0);
    FrontParts(t, 0);
    DottedIs(Parts(t, 0));
    NotADot(t[s..], e - s);
    NoQuadRefused(t);
    WordsRefused(t);
    if e == dot {
      DotIsNoQuad(t, e);
    } else {
      LettersBad(t, e, dot, 0, [], -1);
    }
  }

  /**
   * Every text is read as its parts say: with a dot in it, the last part must be a quad and the rest the words before
   * it. This is exactly which texts are accepted, and as which addresses.
   */
  lemma PtonReads(t: string)
    ensures Parse(t) == if '.' in t then DottedAddress(Parts(t, 0)) else AddressOf(Whole(Parts(t, 0)), [])
  {
    hide *;
    FirstDotFirst(t, 0);
    assert t[0..] == t;
    if '.' !in t {
      PtonReadsParts(t);
    } else if FirstDot(t, 0) < LastStart(t, 0) {
      DotBefore(t);
    } else {
      BackUpDigits(t, FirstDot(t, 0));
      if BackUp(t, FirstDot(t, 0)) > LastStart(t, 0) { LettersFirst(t); } else { NotBefore(t); QuadLast(t); }
    }
  }

  /** The digits do not reach over a colon. */
  lemma NotBefore(t: string)
    requires LastStart(t, 0) <= FirstDot(t, 0) < |t|
    ensures BackUp(t, FirstDot(t, 0)) >= LastStart(t, 0)
  {
    hide *;
    BackUpDigits(t, FirstDot(t, 0));
    assert !IsDigit(':') by { ColonNoDigit(); }
  }

  lemma ColonNoDigit()
    ensures !IsDigit(':')
  {
  }

  /** A colon after a quad is not let through. */
  lemma QuadThenColon(t: string)
    requires '.' in t
    ensures Parse(t + ":") == Refused
  {
    hide *;
    PtonReads(t + ":");
    PartsMore(t, 0);
    DottedIs(Parts(t + ":", 0));
    EmptyNoQuad();
  }

  lemma EmptyNoQuad()
    ensures !IsQuad("")
  {
  }
}
