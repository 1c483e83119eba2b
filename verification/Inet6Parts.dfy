/** What evutil_inet_pton accepts, said of the parts of a text between its colons. */
module Inet6Parts {
  import opened Inet6
  import opened Seqs

  /** Where the first colon of t from k on is, or the end. */
  function ColonFrom(t: string, k: nat): (e: nat)
    requires k <= |t|
    ensures k <= e <= |t| && (e < |t| ==> t[e] == ':') && forall i :: k <= i < e ==> t[i] != ':'
    decreases |t| - k
  {
    if k == |t| || t[k] == ':' then k else ColonFrom(t, k + 1)
  }

  /** The parts of t from k on. */
  function Parts(t: string, k: nat): (ps: seq<string>)
    requires k <= |t|
    ensures ps != [] && ps[0] == t[k..ColonFrom(t, k)]
    decreases |t| - k
  {
    var e := ColonFrom(t, k);
    if e == |t| then [t[k..]] else [t[k..e]] + Parts(t, e + 1)
  }

  /** A word: up to four characters, all of which strtol reads; so 0x1 and 0x12 are words too. */
  predicate IsWord(s: string)
  {
    0 < |s| <= 4 && IsHex(s[0]) && Strtol16(s, 0).1 == |s|
  }

  function WordOf(s: string): Word
    requires IsWord(s)
  {
    Strtol16(s, 0).0 % 0x1_0000
  }

  /** Words, the last of which may be missing. */
  function Tail(ps: seq<string>): (r: Option<seq<Word>>)
    requires ps != []
  {
    if |ps| == 1 && ps[0] == "" then Some([])
    else if !IsWord(ps[0]) then None
    else if |ps| == 1 then Some([WordOf(ps[0])])
    else
      match Tail(ps[1..])
      case None => None
      case Some(ws) => Some([WordOf(ps[0])] + ws)
  }

  /** The same after n words, with at most one part left empty, for the gap. */
  function Body(ps: seq<string>, n: nat): Words
    requires ps != []
  {
    if |ps| > 1 && ps[0] == "" then
      match Tail(ps[1..])
      case None => Bad
      case Some(ws) => Words(ws, n)
    else if |ps| == 1 && ps[0] == "" then Words([], -1)
    else if !IsWord(ps[0]) then Bad
    else if |ps| == 1 then Words([WordOf(ps[0])], -1)
    else
      match Body(ps[1..], n + 1)
      case Bad => Bad
      case Words(ws, gap) => Words([WordOf(ps[0])] + ws, gap)
  }

  /** A gap at the beginning leaves two parts empty. */
  function Whole(ps: seq<string>): Words
    requires ps != []
  {
    if ps[0] != "" || |ps| == 1 then Body(ps, 0)
    else if |ps| == 2 || ps[1] != "" then Bad
    else
      match Tail(ps[2..])
      case None => Bad
      case Some(ws) => Words(ws, 0)
  }

  // ---- strtol does not look past a colon

  lemma {:induction false} HexRunPart(t: string, k: nat, e: nat, i: nat)
    requires k <= i <= e <= |t| && (e < |t| ==> t[e] == ':')
    ensures HexRun(t, i) == HexRun(t[k..e], i - k)
    decreases e - i
  {
    if i < e && IsHex(t[i]) {
      HexRunPart(t, k, e, i + 1);
    }
  }

  lemma StrtolPart(t: string, k: nat, e: nat)
    requires k < e <= |t| && (e < |t| ==> t[e] == ':') && IsHex(t[k])
    ensures var (r, next) := Strtol16(t, k); Strtol16(t[k..e], 0) == (r, next - k)
  {
    var s := t[k..e];
    var from := SkipPrefix(t, k);
    PrefixPart(t, k, e);
    HexRunPart(t, k, e, from);
    var n := HexRun(t, from);
    hide HexRun, ValueOf, IsHex, SkipPrefix;
    SlicePart(t, k, e, from - k, from - k + n);
    StrtolIs(t, k);
    StrtolIs(s, 0);
  }

  lemma StrtolIs(t: string, k: nat)
    requires k < |t| && IsHex(t[k])
    ensures var from := SkipPrefix(t, k); var n := HexRun(t, from); Strtol16(t, k) == (ValueOf(t[from..from + n], 16), from + n)
  {
    hide SkipPrefix, HexRun, ValueOf;
  }

  lemma PrefixPart(t: string, k: nat, e: nat)
    requires k < e <= |t| && (e < |t| ==> t[e] == ':')
    ensures SkipPrefix(t[k..e], 0) == SkipPrefix(t, k) - k && SkipPrefix(t, k) < e
  {
    var s := t[k..e];
    assert k + 1 < e ==> s[1] == t[k + 1];
    assert k + 2 < e ==> s[2] == t[k + 2];
  }

  lemma SlicePart(t: string, k: nat, e: nat, a: nat, b: nat)
    requires k <= e <= |t| && a <= b <= e - k
    ensures t[k..e][a..b] == t[k + a..k + b]
  {
    forall i | 0 <= i < b - a ensures t[k..e][a..b][i] == t[k + a..k + b][i] {
    }
  }

  /** The loop takes a part that is a word, with its colon, and nothing else that begins with a digit. */
  lemma WordStep(t: string, k: nat, ws: seq<Word>, gap: int)
    requires k < |t| && t[k] != ':'
    ensures var s, e := Parts(t, k)[0], ColonFrom(t, k);
            ParseFrom(t, |t|, k, ws, gap) ==
              if |ws| > 7 || !IsWord(s) then Bad else ParseFrom(t, |t|, e + 1, ws + [WordOf(s)], gap)
  {
    hide Strtol16;
    var e := ColonFrom(t, k);
    var s := t[k..e];
    assert s[0] == t[k];
    if IsHex(t[k]) {
      StrtolPart(t, k, e);
      ShortWord(s);
      var (r, next) := Strtol16(t, k);
      assert next < e ==> t[next] != ':' && next < |t|;
    }
  }

  /** Four characters make no more than 65535. */
  lemma ShortWord(s: string)
    requires 0 < |s| && IsHex(s[0])
    ensures Strtol16(s, 0).1 <= 4 ==> Strtol16(s, 0).0 < 0x1_0000
  {
    var (r, next) := Strtol16(s, 0);
    if next <= 4 {
      var from := if s[0] == '0' && 2 < |s| && (s[1] == 'x' || s[1] == 'X') && IsHex(s[2]) then 2 else 0;
      ValueBound(s[from..next]);
    }
  }

  lemma ValueBound(s: string)
    requires |s| <= 4
    ensures ValueOf(s, 16) < 0x1_0000
  {
    if |s| > 0 {
      var a := s[..|s| - 1];
      if |a| > 0 {
        var b := a[..|a| - 1];
        if |b| > 0 {
          var c := b[..|b| - 1];
          assert |c| > 0 ==> ValueOf(c, 16) < 16;
          assert ValueOf(c, 16) < 16;
          assert ValueOf(b, 16) < 256;
        }
        assert ValueOf(a, 16) < 4096;
      }
    }
  }

  lemma PartsStep(t: string, k: nat)
    requires k <= |t|
    ensures var e := ColonFrom(t, k);
            && Parts(t, k)[0] == t[k..e]
            && (e == |t| <==> |Parts(t, k)| == 1)
            && (e < |t| ==> Parts(t, k)[1..] == Parts(t, e + 1))
            && (t[k..e] == "" <==> e == k)
  {
    var e := ColonFrom(t, k);
    if e == |t| { assert t[k..] == t[k..e]; }
  }

  lemma ParseEnd(t: string, k: nat, ws: seq<Word>, gap: int)
    requires k >= |t|
    ensures ParseFrom(t, |t|, k, ws, gap) == Words(ws, gap)
  {
  }

  lemma SecondGap(t: string, k: nat, ws: seq<Word>, gap: int)
    requires k < |t| && t[k] == ':' && gap != -1
    ensures ParseFrom(t, |t|, k, ws, gap) == Bad
  {
  }

  lemma TailStep(ps: seq<string>)
    requires ps != []
    ensures Tail([""]) == Some([]) && !IsWord("")
    ensures ps != [""] && !IsWord(ps[0]) ==> Tail(ps) == None
    ensures |ps| == 1 && IsWord(ps[0]) ==> Tail(ps) == Some([WordOf(ps[0])])
    ensures |ps| > 1 && IsWord(ps[0]) ==>
              var rest := Tail(ps[1..]); Tail(ps) == if rest.None? then None else Some([WordOf(ps[0])] + rest.value)
  {
    assert |ps| == 1 && ps[0] == "" ==> ps == [""];
  }

  lemma Joined(ws: seq<Word>, v: Word, vs: seq<Word>)
    ensures ws + [v] + vs == ws + ([v] + vs) && ws + [] == ws && |[v] + vs| == 1 + |vs|
  {
  }

  /** What the loop makes of parts vs after the words ws. */
  function Taken(ws: seq<Word>, vs: Option<seq<Word>>, gap: int): Words
  {
    match vs
    case None => Bad
    case Some(vs) => if vs == [] || |ws| + |vs| <= 8 then Words(ws + vs, gap) else Bad
  }

  lemma TakenOne(ws: seq<Word>, v: Word, rest: Option<seq<Word>>, gap: int)
    requires |ws| <= 7
    ensures Taken(ws + [v], rest, gap) == Taken(ws, if rest.None? then None else Some([v] + rest.value), gap)
    ensures Taken(ws, Some([v]), gap) == Words(ws + [v], gap)
    ensures Taken(ws, Some([]), gap) == Words(ws, gap) && Taken(ws, None, gap) == Bad
  {
    if rest.Some? { Joined(ws, v, rest.value); }
    Joined(ws, v, []);
  }

  lemma TakenMany(ws: seq<Word>, v: Word, vs: seq<Word>, gap: int)
    requires |ws| > 7
    ensures Taken(ws, Some([v] + vs), gap) == Bad && Taken(ws, Some([v]), gap) == Bad
    ensures Taken(ws, Some([]), gap) == Words(ws, gap) && Taken(ws, None, gap) == Bad
  {
    Joined(ws, v, []);
  }

  /** After the gap. */
  lemma {:induction false} TailParse(t: string, k: nat, ws: seq<Word>, gap: nat)
    requires k <= |t|
    ensures ParseFrom(t, |t|, k, ws, gap) == Taken(ws, Tail(Parts(t, k)), gap)
    decreases |t| - k
  {
    hide *;
    PartsStep(t, k);
    var e := ColonFrom(t, k);
    var ps := Parts(t, k);
    TailStep(ps);
    var v: Word := if IsWord(ps[0]) then WordOf(ps[0]) else 0;
    var rest := if |ps| > 1 then Tail(ps[1..]) else None;
    if |ws| <= 7 { TakenOne(ws, v, rest, gap); } else { TakenMany(ws, v, if rest.None? then [] else rest.value, gap); }
    if k == |t| {
      ParseEnd(t, k, ws, gap);
      assert ps == [""];
    } else if t[k] != ':' {
      WordStep(t, k, ws, gap);
      if |ws| <= 7 && IsWord(ps[0]) {
        if e < |t| {
          TailParse(t, e + 1, ws + [v], gap);
        } else {
          ParseEnd(t, e + 1, ws + [v], gap);
        }
      }
    } else {
      SecondGap(t, k, ws, gap);
    }
  }

  // ---- Before the gap

  lemma BodyStep(ps: seq<string>, n: nat)
    requires ps != []
    ensures Body([""], n) == Words([], -1) && !IsWord("")
    ensures |ps| > 1 && ps[0] == "" ==> Body(ps, n) == if Tail(ps[1..]).None? then Bad else Words(Tail(ps[1..]).value, n)
    ensures ps[0] != "" && !IsWord(ps[0]) ==> Body(ps, n) == Bad
    ensures |ps| == 1 && IsWord(ps[0]) ==> Body(ps, n) == Words([WordOf(ps[0])], -1)
    ensures |ps| > 1 && IsWord(ps[0]) ==>
              var o := Body(ps[1..], n + 1); Body(ps, n) == if o.Bad? then Bad else Words([WordOf(ps[0])] + o.ws, o.gap)
  {
  }

  /** What the loop makes of parts that say o, after the words ws. */
  function Reached(ws: seq<Word>, o: Words): Words
  {
    if o.Bad? || o.gap > 7 || (o.ws != [] && |ws| + |o.ws| > 8) then Bad else Words(ws + o.ws, o.gap)
  }

  lemma ReachedOne(ws: seq<Word>, v: Word, o: Words)
    requires |ws| <= 7
    ensures Reached(ws + [v], o) == Reached(ws, if o.Bad? then Bad else Words([v] + o.ws, o.gap))
    ensures Reached(ws, Words([v], -1)) == Words(ws + [v], -1)
  {
    if o.Words? { Joined(ws, v, o.ws); }
  }

  lemma ReachedMany(ws: seq<Word>, v: Word, vs: seq<Word>, gap: int)
    requires |ws| > 7
    ensures Reached(ws, Words([v] + vs, gap)) == Bad && Reached(ws, Words([v], gap)) == Bad
  {
    Joined(ws, v, vs);
  }

  lemma ReachedEnd(ws: seq<Word>)
    ensures Reached(ws, Words([], -1)) == Words(ws, -1) && Reached(ws, Bad) == Bad
  {
    assert ws + [] == ws;
  }

  /** At the gap. */
  lemma ReachedGap(ws: seq<Word>, vs: Option<seq<Word>>)
    ensures Reached(ws, if vs.None? then Bad else Words(vs.value, |ws|)) ==
              if |ws| > 7 then Bad else Taken(ws, vs, |ws|)
  {
  }

  lemma FirstGap(t: string, k: nat, ws: seq<Word>)
    requires k < |t| && t[k] == ':' && ws != []
    ensures ParseFrom(t, |t|, k, ws, -1) == if |ws| > 7 then Bad else ParseFrom(t, |t|, k + 1, ws, |ws|)
  {
  }

  lemma {:induction false} BodyParse(t: string, k: nat, ws: seq<Word>)
    requires k <= |t| && ws != []
    ensures ParseFrom(t, |t|, k, ws, -1) == Reached(ws, Body(Parts(t, k), |ws|))
    decreases |t| - k
  {
    hide *;
    PartsStep(t, k);
    var e := ColonFrom(t, k);
    var ps := Parts(t, k);
    BodyStep(ps, |ws|);
    ReachedEnd(ws);
    if k == |t| {
      ParseEnd(t, k, ws, -1);
      assert ps == [""];
    } else if t[k] == ':' {
      FirstGap(t, k, ws);
      ReachedGap(ws, Tail(ps[1..]));
      if |ws| <= 7 { TailParse(t, k + 1, ws, |ws|); }
    } else {
      WordStep(t, k, ws, -1);
      if IsWord(ps[0]) {
        var v := WordOf(ps[0]);
        var o := if e < |t| then Body(ps[1..], |ws| + 1) else Bad;
        if |ws| > 7 {
          ReachedMany(ws, v, if o.Bad? then [] else o.ws, if o.Bad? then -1 else o.gap);
        } else {
          ReachedOne(ws, v, o);
          if e < |t| { BodyParse(t, e + 1, ws + [v]); } else { ParseEnd(t, e + 1, ws + [v], -1); }
        }
      }
    }
  }

  lemma LeadingGap(t: string)
    requires t != "" && t[0] == ':'
    ensures ParseFrom(t, |t|, 0, [], -1) == if |t| > 1 && t[1] == ':' then ParseFrom(t, |t|, 2, [], 0) else Bad
  {
  }

  lemma WholeStep(ps: seq<string>)
    requires ps != []
    ensures ps[0] != "" || |ps| == 1 ==> Whole(ps) == Body(ps, 0)
    ensures ps[0] == "" && |ps| > 1 && (|ps| == 2 || ps[1] != "") ==> Whole(ps) == Bad
    ensures ps[0] == "" && |ps| > 2 && ps[1] == "" ==>
              Whole(ps) == if Tail(ps[2..]).None? then Bad else Words(Tail(ps[2..]).value, 0)
  {
  }

  /** The loop, from the start. */
  lemma WholeParse(t: string)
    ensures ParseFrom(t, |t|, 0, [], -1) == Reached([], Whole(Parts(t, 0)))
  {
    hide *;
    if t == "" {
      ParseEnd(t, 0, [], -1);
      PartsAre(t, 0);
      ColonAtEnd(t);
      assert Parts(t, 0) == [""];
      WholeStep([""]);
      BodyStep([""], 0);
      ReachedEnd([]);
    } else if t[0] == ':' {
      GapFirst(t);
    } else {
      WordFirst(t);
    }
  }

  lemma GapFirst(t: string)
    requires t != "" && t[0] == ':'
    ensures ParseFrom(t, |t|, 0, [], -1) == Reached([], Whole(Parts(t, 0)))
  {
    hide *;
    var ps := Parts(t, 0);
    PartsStep(t, 0);
    PartsStep(t, 1);
    WholeStep(ps);
    ReachedEnd([]);
    LeadingGap(t);
    if |t| > 1 && t[1] == ':' {
      ReachedGap([], Tail(ps[2..]));
      TailParse(t, 2, [], 0);
      assert ps[1..][1..] == ps[2..];
    }
  }

  lemma WordFirst(t: string)
    requires t != "" && t[0] != ':'
    ensures ParseFrom(t, |t|, 0, [], -1) == Reached([], Whole(Parts(t, 0)))
  {
    hide *;
    PartsStep(t, 0);
    var e, ps := ColonFrom(t, 0), Parts(t, 0);
    WholeStep(ps);
    WordStep(t, 0, [], -1);
    if !IsWord(ps[0]) {
      BodyStep(ps, 0);
      ReachedEnd([]);
    } else if e < |t| {
      BodyParse(t, e + 1, [WordOf(ps[0])]);
      WordAndMore(ps);
    } else {
      ParseEnd(t, e + 1, [WordOf(ps[0])], -1);
      WordAlone(ps);
    }
  }

  lemma WordAndMore(ps: seq<string>)
    requires |ps| > 1 && IsWord(ps[0])
    ensures [] + [WordOf(ps[0])] == [WordOf(ps[0])]
    ensures Reached([], Body(ps, 0)) == Reached([WordOf(ps[0])], Body(ps[1..], 1))
  {
    hide *;
    BodyStep(ps, 0);
    ReachedOne([], WordOf(ps[0]), Body(ps[1..], 1));
    assert [] + [WordOf(ps[0])] == [WordOf(ps[0])];
  }

  lemma WordAlone(ps: seq<string>)
    requires |ps| == 1 && IsWord(ps[0])
    ensures [] + [WordOf(ps[0])] == [WordOf(ps[0])]
    ensures Reached([], Body(ps, 0)) == Words([WordOf(ps[0])], -1)
  {
    hide *;
    BodyStep(ps, 0);
    ReachedOne([], WordOf(ps[0]), Bad);
    assert [] + [WordOf(ps[0])] == [WordOf(ps[0])];
  }

  /** The gap is among the words. */
  lemma {:induction false} BodyGap(ps: seq<string>, n: nat)
    requires ps != []
    ensures var o := Body(ps, n); o.Words? ==> -1 <= o.gap <= n + |o.ws|
  {
    if |ps| > 1 && ps[0] != "" && IsWord(ps[0]) {
      BodyGap(ps[1..], n + 1);
    }
  }

  /** The address that words, a gap and the two words of a quad, if there is one, stand for. */
  function AddressOf(o: Words, quad: seq<Word>): Address
  {
    if o.Bad? || o.gap > |o.ws| then Refused else Assemble(o.ws, o.gap, quad)
  }

  /** What the loop gives up early on is refused in any case. */
  lemma ReachedSame(o: Words, quad: seq<Word>)
    requires o.Words? ==> -1 <= o.gap <= |o.ws|
    ensures AddressOf(Reached([], o), quad) == AddressOf(o, quad)
  {
    if o.Words? { assert [] + o.ws == o.ws; }
  }

  /** A text without a dot is read as its parts say: exactly which texts are accepted, and as which addresses. */
  lemma PtonReadsParts(t: string)
    requires '.' !in t
    ensures Parse(t) == AddressOf(Whole(Parts(t, 0)), [])
  {
    hide *;
    NoFirstDot(t, 0);
    WholeParse(t);
    WholeGap(Parts(t, 0));
    ReachedSame(Whole(Parts(t, 0)), []);
    ParsePlain(t);
  }

  lemma WholeGap(ps: seq<string>)
    requires ps != []
    ensures Whole(ps).Words? ==> -1 <= Whole(ps).gap <= |Whole(ps).ws|
  {
    BodyGap(ps, 0);
  }

  lemma ParsePlain(t: string)
    requires FirstDot(t, 0) == |t|
    ensures Parse(t) == AddressOf(ParseFrom(t, |t|, 0, [], -1), [])
  {
    ParseGap(t, |t|, 0, [], -1);
    hide ParseFrom, FirstDot;
  }

  // ---- One colon too many at the end is let through

  lemma {:induction false} PartsMore(t: string, k: nat)
    requires k <= |t|
    ensures Parts(t + ":", k) == Parts(t, k) + [""]
    decreases |t| - k
  {
    hide *;
    var u := t + ":";
    ColonMore(t, k);
    var e := ColonFrom(t, k);
    PartsAre(t, k);
    PartsAre(u, k);
    assert u[k..e] == t[k..e];
    if e == |t| {
      PartsAre(u, |u|);
      ColonAtEnd(u);
    } else {
      PartsMore(t, e + 1);
      assert [t[k..e]] + (Parts(t, e + 1) + [""]) == [t[k..e]] + Parts(t, e + 1) + [""];
    }
  }

  lemma ColonAtEnd(u: string)
    ensures ColonFrom(u, |u|) == |u| && u[|u|..|u|] == ""
  {
  }

  lemma PartsAre(t: string, k: nat)
    requires k <= |t|
    ensures var e := ColonFrom(t, k); Parts(t, k) == [t[k..e]] + if e == |t| then [] else Parts(t, e + 1)
  {
    var e := ColonFrom(t, k);
    if e == |t| { assert t[k..] == t[k..e]; }
  }

  lemma {:induction false} ColonMore(t: string, k: nat)
    requires k <= |t|
    ensures ColonFrom(t + ":", k) == ColonFrom(t, k)
    decreases |t| - k
  {
    if k < |t| && t[k] != ':' { ColonMore(t, k + 1); }
  }

  lemma {:induction false} TailMore(ps: seq<string>)
    requires ps != [] && ps[|ps| - 1] != ""
    ensures Tail(ps + [""]) == Tail(ps)
  {
    TailStep(ps);
    TailStep(ps + [""]);
    assert (ps + [""])[1..] == ps[1..] + [""];
    hide IsWord, WordOf;
    if |ps| > 1 { TailMore(ps[1..]); } else { assert ps[1..] + [""] == [""]; }
    if IsWord(ps[0]) { assert [WordOf(ps[0])] + [] == [WordOf(ps[0])]; }
  }

  lemma {:induction false} BodyMore(ps: seq<string>, n: nat)
    requires ps != [] && ps[|ps| - 1] != ""
    ensures Body(ps + [""], n) == Body(ps, n)
  {
    BodyStep(ps, n);
    BodyStep(ps + [""], n);
    BodyStep([""], n + 1);
    assert (ps + [""])[1..] == ps[1..] + [""];
    hide IsWord, WordOf;
    if |ps| > 1 {
      BodyMore(ps[1..], n + 1);
      TailMore(ps[1..]);
    } else {
      assert ps[1..] + [""] == [""];
      if IsWord(ps[0]) { assert [WordOf(ps[0])] + [] == [WordOf(ps[0])]; }
    }
  }

  lemma WholeMore(ps: seq<string>)
    requires ps != [] && ps[|ps| - 1] != ""
    ensures Whole(ps + [""]) == Whole(ps)
  {
    hide Body, Tail;
    BodyMore(ps, 0);
    if |ps| > 2 {
      TailMore(ps[2..]);
      assert (ps + [""])[2..] == ps[2..] + [""];
    }
  }

  lemma {:induction false} LastPart(t: string, k: nat)
    requires k < |t| && t[|t| - 1] != ':'
    ensures var ps := Parts(t, k); ps[|ps| - 1] != ""
    decreases |t| - k
  {
    var e := ColonFrom(t, k);
    if e < |t| { LastPart(t, e + 1); }
  }

  lemma TrailingColon(t: string)
    requires '.' !in t && t != "" && t[|t| - 1] != ':'
    ensures Parse(t + ":") == Parse(t)
  {
    hide *;
    PtonReadsParts(t);
    PtonReadsParts(t + ":");
    PartsMore(t, 0);
    LastPart(t, 0);
    WholeMore(Parts(t, 0));
  }
}
