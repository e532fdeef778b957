/**
 The parser on whole byte streams: a reference parser that splits at line feeds, and the
 parse of a stream that arrives in batches, with the one piece of state (a pending CR) that
 the scanner carries from a batch to the next.
 */
module StreamParse {
  import opened RequestLine

  /** What a parse has reached: RESULT_CODE, CHECK_STAT, the two cursors and the raw lines handed on. */
  datatype Outcome = Outcome(result: Code, check: CheckStat, linest: nat, checked: nat, lines: seq<bytes>)

  /** The first line feed at or after `i`, or |s|. */
  function NextLf(s: bytes, i: nat): (p: nat)
    requires i <= |s|
    ensures i <= p <= |s|
    ensures p < |s| ==> s[p] == LF
    ensures forall k :: i <= k < p ==> s[k] != LF
    decreases |s| - i
  {
    if i == |s| || s[i] == LF then i else NextLf(s, i + 1)
  }

  predicate EndsInCr(s: bytes) { s != [] && s[|s| - 1] == CR }

  /** What the next line feed means: none yet, an error, or the end of a line. */
  datatype Piece = Pending | BareLf(pos: nat) | Line(line: bytes, next: nat)

  /**
   Every line feed ends a line; one that has no CR before it is an error, unless `stale` is set:
   then the line is accepted with its last byte dropped, whatever that byte is.
   */
  function NextPiece(s: bytes, from: nat, stale: bool): (c: Piece)
    requires from <= |s|
    ensures c.BareLf? ==> from <= c.pos < |s|
    ensures c.Line? ==> from < c.next <= |s| && s[c.next - 1] == LF && |c.line| + 2 == c.next - from
  {
    var p := NextLf(s, from);
    if p == |s| then Pending
    else if p == from || (s[p - 1] != CR && !stale) then BareLf(p)
    else Line(s[from..p - 1], p + 1)
  }

  /** Parse `s` from the start of a line. */
  function ParseFrom(s: bytes, from: nat, check: CheckStat, lines: seq<bytes>, stale: bool): (o: Outcome)
    requires from <= |s|
    ensures from <= o.linest <= o.checked <= |s|
    decreases |s| - from
  {
    match NextPiece(s, from, stale)
    case Pending => Outcome(NoRequest, check, from, if from < |s| && EndsInCr(s) then |s| - 1 else |s|, lines)
    case BareLf(p) => Outcome(BadRequest, check, from, p, lines)
    case Line(line, next) =>
      var verdict := Judge(check, line);
      if verdict != NoRequest then Outcome(verdict, check, next, next, lines + [line])
      else ParseFrom(s, next, NextCheck(check, verdict), lines + [line], false)
  }

  /** The reference parser. */
  function Parse(s: bytes): Outcome { ParseFrom(s, 0, ReqLine, [], false) }

  function Concat(bs: seq<bytes>): bytes {
    if bs == [] then [] else Concat(bs[..|bs| - 1]) + bs[|bs| - 1]
  }

  /** The same outcome after batch `b` has been appended to the received bytes `s`. */
  function Feed(s: bytes, o: Outcome, b: bytes): (r: Outcome)
    requires o.linest <= o.checked <= |s|
    ensures r.linest <= r.checked <= |s + b|
    ensures o.linest <= r.linest
  {
    if o.result != NoRequest then o
    else ParseFrom(s + b, o.linest, o.check, o.lines, o.checked < |s|)
  }

  /** The outcome of receiving the batches one after the other. */
  function CutParse(bs: seq<bytes>): (o: Outcome)
    ensures o.linest <= o.checked <= |Concat(bs)|
  {
    if bs == [] then Outcome(NoRequest, ReqLine, 0, 0, [])
    else Feed(Concat(bs[..|bs| - 1]), CutParse(bs[..|bs| - 1]), bs[|bs| - 1])
  }

  /** The bytes of `s` end in a CR and the next line feed comes in `b` without a CR before it. */
  predicate StaleHit(s: bytes, b: bytes) {
    && EndsInCr(s)
    && var t := s + b; var p := NextLf(t, |s|); p < |t| && t[p - 1] != CR
  }

  /** Batch `k` is stale: the stream before it is undecided, and it hits the pending CR. */
  predicate StaleAt(bs: seq<bytes>, k: nat)
    requires k < |bs|
  {
    Parse(Concat(bs[..k])).result == NoRequest && StaleHit(Concat(bs[..k]), bs[k])
  }

  predicate StaleCut(bs: seq<bytes>) { exists k :: 0 <= k < |bs| && StaleAt(bs, k) }

  // ---- How the reference parser reacts to more input

  lemma NextLfExtends(s: bytes, t: bytes, i: nat)
    requires i <= |s|
    ensures NextLf(s, i) < |s| ==> NextLf(s + t, i) == NextLf(s, i)
    ensures NextLf(s, i) == |s| ==> NextLf(s + t, i) == NextLf(s + t, |s|)
  {
    hide NextLf;
    var p, q, q' := NextLf(s, i), NextLf(s + t, i), NextLf(s + t, |s|);
    assert forall k :: i <= k < |s| ==> (s + t)[k] == s[k];
    assert q < |s + t| ==> (s + t)[q] == LF;
    assert q' < |s + t| ==> (s + t)[q'] == LF;
  }

  lemma NextPieceExtends(s: bytes, t: bytes, from: nat)
    requires from <= |s| && NextPiece(s, from, false) != Pending
    ensures NextPiece(s + t, from, false) == NextPiece(s, from, false)
  {
    hide NextLf;
    NextLfExtends(s, t, from);
    var p := NextLf(s, from);
    assert p != from ==> (s + t)[from..p - 1] == s[from..p - 1];
  }

  /** A decision is final, and an undecided parse can be resumed from the last line start. */
  lemma {:induction false} ParseExtends(s: bytes, t: bytes, from: nat, check: CheckStat, lines: seq<bytes>)
    requires from <= |s|
    ensures var o := ParseFrom(s, from, check, lines, false);
      ParseFrom(s + t, from, check, lines, false) ==
      if o.result != NoRequest then o else ParseFrom(s + t, o.linest, o.check, o.lines, false)
    decreases |s| - from
  {
    hide Judge, NextCheck, NextPiece;
    var c := NextPiece(s, from, false);
    if c != Pending {
      NextPieceExtends(s, t, from);
      if c.Line? && Judge(check, c.line) == NoRequest {
        ParseExtends(s, t, c.next, NextCheck(check, NoRequest), lines + [c.line]);
      }
    }
  }

  /** An undecided parse stands at the start of the stream or just after a line feed. */
  lemma {:induction false} UndecidedAt(s: bytes, from: nat, check: CheckStat, lines: seq<bytes>)
    requires from <= |s| && (from == 0 || s[from - 1] == LF)
    ensures var o := ParseFrom(s, from, check, lines, false);
      o.result == NoRequest ==>
        && NextLf(s, o.linest) == |s|
        && (o.checked < |s| <==> EndsInCr(s))
        && (o.checked < |s| ==> o.linest <= o.checked == |s| - 1)
    decreases |s| - from
  {
    hide Judge, NextCheck, NextLf;
    var c := NextPiece(s, from, false);
    if c.Line? && Judge(check, c.line) == NoRequest {
      UndecidedAt(s, c.next, NextCheck(check, NoRequest), lines + [c.line]);
    }
  }

  lemma StalePiece(s: bytes, b: bytes, from: nat)
    requires from <= |s| && NextLf(s, from) == |s| && EndsInCr(s)
    ensures var p := NextLf(s + b, |s|);
      var plain, stale := NextPiece(s + b, from, false), NextPiece(s + b, from, true);
      if StaleHit(s, b) then plain == BareLf(p) && stale.Line? && stale.next == p + 1 else plain == stale
  {
    hide NextLf;
    NextLfExtends(s, b, from);
    assert (s + b)[|s| - 1] == CR && (from < |s| ==> s[|s| - 1] != LF);
  }

  /** What one more batch does to an undecided outcome that agrees with the reference parser. */
  lemma FeedStep(s: bytes, b: bytes)
    requires Parse(s).result == NoRequest
    ensures var o := Feed(s, Parse(s), b);
      && (!StaleHit(s, b) ==> o == Parse(s + b))
      && (StaleHit(s, b) ==> o.linest > Parse(s + b).checked && Parse(s + b).result == BadRequest)
  {
    hide Judge, NextCheck, NextPiece, StaleHit, NextLf;
    var o := Parse(s);
    UndecidedAt(s, 0, ReqLine, []);
    ParseExtends(s, b, 0, ReqLine, []);
    if EndsInCr(s) {
      StalePiece(s, b, o.linest);
    } else {
      assert !StaleHit(s, b) by { NotHit(s, b); }
    }
  }

  lemma NotHit(s: bytes, b: bytes)
    requires !EndsInCr(s)
    ensures !StaleHit(s, b)
  {
  }

  lemma StaleCutSplits(bs: seq<bytes>)
    requires bs != []
    ensures StaleCut(bs) <==> StaleCut(bs[..|bs| - 1]) || StaleAt(bs, |bs| - 1)
  {
    var cs := bs[..|bs| - 1];
    forall k | 0 <= k < |cs|
      ensures StaleAt(bs, k) <==> StaleAt(cs, k)
    {
      assert bs[..k] == cs[..k];
    }
    if StaleCut(cs) {
      var k :| 0 <= k < |cs| && StaleAt(cs, k);
      assert StaleAt(bs, k);
    }
  }

  lemma EmptyParse()
    ensures Parse([]) == Outcome(NoRequest, ReqLine, 0, 0, [])
  {
  }

  /** The invariant behind batch independence, for every stream and every way of cutting it. */
  lemma {:induction false} CutParseStep(bs: seq<bytes>)
    ensures !StaleCut(bs) ==> CutParse(bs) == Parse(Concat(bs))
    ensures StaleCut(bs) ==>
      Parse(Concat(bs)).result == BadRequest && CutParse(bs).linest > Parse(Concat(bs)).checked
  {
    hide ParseFrom, StaleHit;
    if bs == [] {
      assert Parse([]) == CutParse(bs) by { EmptyParse(); }
    } else {
      var n := |bs| - 1;
      var s, b := Concat(bs[..n]), bs[n];
      CutParseStep(bs[..n]);
      StaleCutSplits(bs);
      ParseExtends(s, b, 0, ReqLine, []);
      if Parse(s).result == NoRequest {
        FeedStep(s, b);
      }
    }
  }

  /**
   Batch independence, exactly: the parse of a stream in batches ends with the result, state,
   cursors and lines of the parse of the whole stream if and only if no batch is stale.
   */
  lemma BatchIndependence(bs: seq<bytes>)
    ensures CutParse(bs) == Parse(Concat(bs)) <==> !StaleCut(bs)
  {
    CutParseStep(bs);
  }

  lemma TwoCuts(bs: seq<bytes>, cs: seq<bytes>)
    requires Concat(bs) == Concat(cs) && !StaleCut(bs)
    ensures CutParse(bs) == CutParse(cs) <==> !StaleCut(cs)
  {
    CutParseStep(bs);
    CutParseStep(cs);
  }

  predicate EveryLfAfterCr(s: bytes) {
    forall p :: 0 <= p < |s| && s[p] == LF ==> 0 < p && s[p - 1] == CR
  }

  predicate EveryCrBeforeLf(s: bytes) {
    forall p :: 0 <= p < |s| - 1 && s[p] == CR ==> s[p + 1] == LF
  }

  lemma {:induction false} ConcatSplits(bs: seq<bytes>, k: nat)
    requires k < |bs|
    ensures Concat(bs[..k]) + bs[k] <= Concat(bs)
  {
    var n := |bs| - 1;
    if k < n {
      ConcatSplits(bs[..n], k);
      assert bs[..n][..k] == bs[..k];
    }
  }

  /** Streams that can be cut anywhere. */
  lemma SafeStream(bs: seq<bytes>)
    requires EveryLfAfterCr(Concat(bs)) || EveryCrBeforeLf(Concat(bs))
    ensures !StaleCut(bs) && CutParse(bs) == Parse(Concat(bs))
  {
    hide ParseFrom;
    forall k | 0 <= k < |bs|
      ensures !StaleAt(bs, k)
    {
      ConcatSplits(bs, k);
      var s, u := Concat(bs[..k]), Concat(bs);
      var t := s + bs[k];
      assert forall i :: 0 <= i < |t| ==> t[i] == u[i];
      if EndsInCr(s) {
        var p := NextLf(t, |s|);
        assert u[|s| - 1] == CR;
      }
    }
    CutParseStep(bs);
  }

  /**
   Without that condition the results themselves differ: " u HTTP/1.1", CR, a byte, LF is a bad
   request in one batch, and a request line when the first batch ends at the CR.
   */
  lemma CutMatters()
    ensures var head: bytes := [32, 117, 32, 72, 84, 84, 80, 47, 49, 46, 49, 13]; var rest: bytes := [88, 10];
      && Concat([head, rest]) == Concat([head + rest])
      && CutParse([head + rest]).result == BadRequest
      && CutParse([head, rest]).result == NoRequest
      && CutParse([head, rest]).check == Header
  {
    hide Concat, CutParse;
    CutsDiffer();
    var head: bytes := [32, 117, 32, 72, 84, 84, 80, 47, 49, 46, 49, 13];
    assert [SP, 117, SP] + HTTP_1_1 + [CR] == head;
  }

  lemma CutsDiffer()
    ensures var head: bytes := [SP, 117, SP] + HTTP_1_1 + [CR]; var rest: bytes := [88, LF];
      && Concat([head, rest]) == Concat([head + rest])
      && CutParse([head + rest]).result == BadRequest
      && CutParse([head, rest]).result == NoRequest
      && CutParse([head, rest]).check == Header
  {
    var head: bytes := [SP, 117, SP] + HTTP_1_1 + [CR];
    var rest: bytes := [88, LF];
    var t := head + rest;
    ConcatOne(t);
    ConcatOne(head);
    assert [t][..0] == [head][..0] == [head, rest][..0] == [];
    assert [head, rest][..1] == [head];
    assert Concat([head, rest]) == t;
    WholeIsBad(head, rest);
    HeadIsPending(head);
    StaleIsAccepted(head, rest);
  }

  lemma WholeIsBad(head: bytes, rest: bytes)
    requires head == [SP, 117, SP] + HTTP_1_1 + [CR] && rest == [88, LF]
    ensures Parse(head + rest).result == BadRequest
  {
    NoLf(head + rest, 0, 13);
  }

  lemma HeadIsPending(head: bytes)
    requires head == [SP, 117, SP] + HTTP_1_1 + [CR]
    ensures Parse(head) == Outcome(NoRequest, ReqLine, 0, 11, [])
  {
    NoLf(head, 0, 12);
  }

  lemma StaleIsAccepted(head: bytes, rest: bytes)
    requires head == [SP, 117, SP] + HTTP_1_1 + [CR] && rest == [88, LF]
    ensures ParseFrom(head + rest, 0, ReqLine, [], true) == Outcome(NoRequest, Header, 14, 14, [head])
  {
    hide Judge;
    var t := head + rest;
    NoLf(t, 0, 13);
    assert t[0..12] == head;
    AcceptVersionLine(head);
    NoLf(t, 14, 14);
  }

  lemma ConcatOne(b: bytes)
    ensures Concat([b]) == b
  {
    assert [b][..0] == [];
    assert Concat([b][..0]) + b == b;
  }

  lemma NoLf(s: bytes, i: nat, p: nat)
    requires i <= p <= |s| && (forall k :: i <= k < p ==> s[k] != LF) && (p == |s| || s[p] == LF)
    ensures NextLf(s, i) == p
  {
  }

  lemma AcceptVersionLine(head: bytes)
    requires head == [SP, 117, SP] + HTTP_1_1 + [CR]
    ensures Judge(ReqLine, head) == NoRequest
  {
    hide FirstBlank, CString, JudgeRequestLine;
    var t := CString(head);
    assert forall k :: 0 <= k < |head| ==> head[k] != NUL;
    assert t == head;
    var p := Parts([], SP, [117], SP, HTTP_1_1, [CR]);
    assert head == p.method_ + [p.blank1] + p.uri + [p.blank2] + p.version + p.tail;
    assert IsMethod(p.method_) && NoBlank(p.uri) && IsVersion(p.version);
    GrammarAccepted(head, p);
  }
}
