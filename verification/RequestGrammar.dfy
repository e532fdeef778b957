/**
 What the parser recognises: the round trip between raw lines and the stream, and the requests
 (start line, header lines, empty line) on which it answers, with the byte at which it does.
 */
module RequestGrammar {
  import opened RequestLine
  import opened StreamParse

  const CRLF: bytes := [CR, LF]

  function Join(lines: seq<bytes>): bytes {
    if lines == [] then [] else Join(lines[..|lines| - 1]) + lines[|lines| - 1] + CRLF
  }

  lemma JoinSnoc(lines: seq<bytes>, line: bytes)
    ensures Join([]) == [] && Join(lines + [line]) == Join(lines) + line + [13, 10]
  {
    assert (lines + [line])[..|lines|] == lines;
  }

  lemma {:induction false} JoinPrefix(a: seq<bytes>, b: seq<bytes>)
    ensures Join(a) <= Join(a + b)
  {
    if b == [] {
      assert a + b == a;
    } else {
      var n := |b| - 1;
      JoinPrefix(a, b[..n]);
      assert a + b == (a + b[..n]) + [b[n]];
      JoinSnoc(a + b[..n], b[n]);
    }
  }

  // ---- Line round trip

  /** Joining the lines gives as many bytes as the line cursor has passed, cut or not. */
  lemma {:induction false} JoinLength(s: bytes, from: nat, check: CheckStat, lines: seq<bytes>, stale: bool)
    requires from <= |s| && |Join(lines)| == from
    ensures var o := ParseFrom(s, from, check, lines, stale); |Join(o.lines)| == o.linest && lines <= o.lines
    decreases |s| - from
  {
    hide Judge, NextCheck, NextPiece;
    var c := NextPiece(s, from, stale);
    if c.Line? {
      JoinSnoc(lines, c.line);
      if Judge(check, c.line) == NoRequest {
        JoinLength(s, c.next, NextCheck(check, NoRequest), lines + [c.line], false);
      }
    }
  }

  lemma PieceJoins(s: bytes, from: nat, lines: seq<bytes>)
    requires from <= |s| && Join(lines) == s[..from]
    ensures var c := NextPiece(s, from, false); c.Line? ==>
      LF !in c.line && Join(lines + [c.line]) == s[..c.next]
  {
    var c := NextPiece(s, from, false);
    if c.Line? {
      JoinSnoc(lines, c.line);
      var p := c.next - 1;
      assert s[..p + 1] == s[..from] + s[from..p - 1] + [s[p - 1], s[p]];
      assert forall k :: 0 <= k < |c.line| ==> c.line[k] == s[from + k];
    }
  }

  lemma {:induction false} ParseJoins(s: bytes, from: nat, check: CheckStat, lines: seq<bytes>)
    requires from <= |s| && Join(lines) == s[..from]
    ensures var o := ParseFrom(s, from, check, lines, false); Join(o.lines) == s[..o.linest]
    decreases |s| - from
  {
    hide Judge, NextCheck, NextPiece, Join;
    PieceJoins(s, from, lines);
    var c := NextPiece(s, from, false);
    if c.Line? && Judge(check, c.line) == NoRequest {
      ParseJoins(s, c.next, NextCheck(check, NoRequest), lines + [c.line]);
    }
  }

  ghost predicate Differs(s: bytes, t: bytes) {
    exists i :: 0 <= i < |s| && i < |t| && s[i] != t[i]
  }

  lemma DiffersLater(s: bytes, t: bytes, s': bytes, t': bytes)
    requires Differs(s, t) && s <= s' && t <= t'
    ensures Differs(s', t')
  {
    var i :| 0 <= i < |s| && i < |t| && s[i] != t[i];
    assert s'[i] == s[i] && t'[i] == t[i];
  }

  lemma StaleSpoils(s: bytes, b: bytes, o: Outcome)
    requires o == Parse(s) && o.result == NoRequest && StaleHit(s, b)
    ensures var r := Feed(s, o, b); |Join(r.lines)| == r.linest && Differs(Join(r.lines), s + b)
  {
    hide Judge, NextCheck, NextLf, NextPiece, Join, Differs;
    assert Join([]) == s[..0] by { EmptyJoin(); }
    ParseJoins(s, 0, ReqLine, []);
    UndecidedAt(s, 0, ReqLine, []);
    var t := s + b;
    assert o.checked < |s| by { assert EndsInCr(s); }
    JoinLength(t, o.linest, o.check, o.lines, true);
    StaleLine(s, b, o.linest, o.lines);
    var first := o.lines + [NextPiece(t, o.linest, true).line];
    var r := Feed(s, o, b);
    StaleFirstLine(t, o.linest, o.check, o.lines);
    JoinPrefix(first, r.lines[|first|..]);
    assert r.lines == first + r.lines[|first|..];
    DiffersLater(Join(first), t, Join(r.lines), t);
  }

  lemma EmptyJoin()
    ensures Join([]) == []
  {
  }

  /** The line accepted by a stale CR, joined with CRLF, is not what was received. */
  lemma StaleLine(s: bytes, b: bytes, from: nat, lines: seq<bytes>)
    requires from <= |s| && NextLf(s, from) == |s| && StaleHit(s, b) && |Join(lines)| == from
    ensures var c := NextPiece(s + b, from, true); c.Line? && Differs(Join(lines + [c.line]), s + b)
  {
    hide NextLf;
    StalePiece(s, b, from);
    var t := s + b;
    var c := NextPiece(t, from, true);
    var p := c.next - 1;
    JoinSnoc(lines, c.line);
    var j := Join(lines + [c.line]);
    assert j[p - 1] == CR && t[p - 1] != CR;
  }

  lemma StaleFirstLine(t: bytes, from: nat, check: CheckStat, lines: seq<bytes>)
    requires from <= |t| && NextPiece(t, from, true).Line? && |Join(lines)| == from
    ensures lines + [NextPiece(t, from, true).line] <= ParseFrom(t, from, check, lines, true).lines
  {
    hide Judge, NextCheck, NextPiece;
    var c := NextPiece(t, from, true);
    JoinSnoc(lines, c.line);
    if Judge(check, c.line) == NoRequest {
      JoinLength(t, c.next, NextCheck(check, NoRequest), lines + [c.line], false);
    }
  }

  lemma {:induction false} StaleCutSpoils(bs: seq<bytes>)
    requires StaleCut(bs)
    ensures var o := CutParse(bs); |Join(o.lines)| == o.linest && Differs(Join(o.lines), Concat(bs))
  {
    hide StaleHit, ParseFrom;
    var n := |bs| - 1;
    var s, b := Concat(bs[..n]), bs[n];
    StaleCutSplits(bs);
    CutParseStep(bs[..n]);
    if StaleCut(bs[..n]) {
      StaleCutSpoils(bs[..n]);
      var o := CutParse(bs[..n]);
      if o.result == NoRequest {
        var r := Feed(s, o, b);
        JoinLength(s + b, o.linest, o.check, o.lines, o.checked < |s|);
        JoinPrefix(o.lines, r.lines[|o.lines|..]);
        assert r.lines == o.lines + r.lines[|o.lines|..];
        DiffersLater(Join(o.lines), s, Join(r.lines), s + b);
      } else {
        DiffersLater(Join(o.lines), s, Join(o.lines), s + b);
      }
    } else {
      StaleSpoils(s, b, Parse(s));
    }
  }

  /** Joining the raw lines with CRLF gives back the stream up to the line cursor, exactly when no batch is stale. */
  lemma LineRoundTrip(bs: seq<bytes>)
    ensures var o := CutParse(bs); Join(o.lines) == Concat(bs)[..o.linest] <==> !StaleCut(bs)
  {
    CutParseStep(bs);
    if StaleCut(bs) {
      StaleCutSpoils(bs);
      var o := CutParse(bs);
      var i :| 0 <= i < |Join(o.lines)| && i < |Concat(bs)| && Join(o.lines)[i] != Concat(bs)[i];
      assert Join(o.lines)[i] != Concat(bs)[..o.linest][i];
    } else {
      assert Join([]) == Concat(bs)[..0];
      ParseJoins(Concat(bs), 0, ReqLine, []);
    }
  }

  // ---- Requests

  /** The lines take the machine from state `check` to a complete request, no earlier than at the last one. */
  predicate Completes(check: CheckStat, lines: seq<bytes>)
    decreases |lines|
  {
    && lines != [] && LF !in lines[0]
    && if |lines| == 1 then Judge(check, lines[0]) == GotRequest
       else Judge(check, lines[0]) == NoRequest && Completes(NextCheck(check, NoRequest), lines[1..])
  }

  predicate IsRequest(lines: seq<bytes>) { Completes(ReqLine, lines) }

  /** A header line the machine passes over: it does not start with the end of its C string. */
  predicate IsHeader(line: bytes) { line != [] && line[0] != NUL }

  lemma {:induction false} HeadersComplete(lines: seq<bytes>)
    ensures Completes(Header, lines) <==>
      && lines != []
      && (forall i :: 0 <= i < |lines| ==> LF !in lines[i])
      && (forall i :: 0 <= i < |lines| - 1 ==> IsHeader(lines[i]))
      && !IsHeader(lines[|lines| - 1])
  {
    if |lines| > 1 {
      HeadersComplete(lines[1..]);
      assert forall i :: 1 <= i < |lines| ==> lines[i] == lines[1..][i - 1];
    }
  }

  lemma RequestParts(lines: seq<bytes>)
    ensures IsRequest(lines) <==>
      && |lines| >= 2
      && (forall i :: 0 <= i < |lines| ==> LF !in lines[i])
      && JudgeRequestLine(lines[0]) == NoRequest
      && (forall i :: 1 <= i < |lines| - 1 ==> IsHeader(lines[i]))
      && !IsHeader(lines[|lines| - 1])
  {
    hide JudgeRequestLine;
    if |lines| >= 2 {
      HeadersComplete(lines[1..]);
      assert forall i :: 1 <= i < |lines| ==> lines[i] == lines[1..][i - 1];
    } else if |lines| == 1 {
      NotGot(lines[0]);
    }
  }

  /** A request is a start line, headers, and a line that is empty (or starts with NUL). */
  lemma RequestShape(lines: seq<bytes>)
    ensures IsRequest(lines) <==>
      && |lines| >= 2
      && (forall i :: 0 <= i < |lines| ==> 10 !in lines[i])
      && (exists p :: IsStartLine(lines[0], p))
      && (forall i :: 1 <= i < |lines| - 1 ==> lines[i] != [] && lines[i][0] != 0)
      && (lines[|lines| - 1] == [] || lines[|lines| - 1][0] == 0)
  {
    hide JudgeRequestLine, Completes, IsStartLine;
    RequestParts(lines);
    if lines != [] {
      AcceptedIffGrammar(lines[0]);
    }
  }

  lemma NotGot(line: bytes)
    ensures JudgeRequestLine(line) != GotRequest
  {
  }

  lemma {:induction false} GotCompletes(s: bytes, from: nat, check: CheckStat, pre: seq<bytes>)
    returns (suf: seq<bytes>)
    requires from <= |s| && Join(pre) == s[..from]
    requires ParseFrom(s, from, check, pre, false).result == GotRequest
    ensures ParseFrom(s, from, check, pre, false).lines == pre + suf && Completes(check, suf)
    decreases |s| - from
  {
    hide Judge, NextCheck, NextPiece, Join;
    PieceJoins(s, from, pre);
    var c := NextPiece(s, from, false);
    if Judge(check, c.line) == NoRequest {
      var rest := GotCompletes(s, c.next, NextCheck(check, NoRequest), pre + [c.line]);
      suf := [c.line] + rest;
      assert pre + [c.line] + rest == pre + suf;
      assert suf[1..] == rest;
    } else {
      suf := [c.line];
    }
  }

  lemma NextLineIs(s: bytes, from: nat, line: bytes)
    requires from + |line| + 2 <= |s| && s[from..from + |line| + 2] == line + CRLF && LF !in line
    ensures NextPiece(s, from, false) == Line(line, from + |line| + 2)
  {
    var w := s[from..from + |line| + 2];
    var p := from + |line| + 1;
    assert forall k :: from <= k < p ==> s[k] == w[k - from];
    assert s[p] == w[|line| + 1];
    NoLf(s, from, p);
    assert s[from..p - 1] == w[..|line|] == line;
  }

  lemma {:induction false} JoinCons(pre: seq<bytes>, line: bytes, suf: seq<bytes>)
    ensures Join(pre + [line] + suf) == Join(pre + ([line] + suf))
    ensures Join(pre) + line + CRLF <= Join(pre + ([line] + suf))
  {
    JoinSnoc(pre, line);
    JoinPrefix(pre + [line], suf);
    assert pre + [line] + suf == pre + ([line] + suf);
  }

  lemma {:induction false} CompletesGot(s: bytes, check: CheckStat, pre: seq<bytes>, suf: seq<bytes>)
    requires Completes(check, suf) && Join(pre + suf) <= s && |Join(pre)| <= |s|
    ensures var o := ParseFrom(s, |Join(pre)|, check, pre, false); var n := |Join(pre + suf)|;
      o.result == GotRequest && o.lines == pre + suf && o.linest == o.checked == n
    decreases |suf|
  {
    hide Judge, NextCheck, NextPiece, Join;
    var line, rest := suf[0], suf[1..];
    var from := |Join(pre)|;
    JoinCons(pre, line, rest);
    assert suf == [line] + rest;
    JoinSnoc(pre, line);
    var j := Join(pre + [line]);
    assert s[from..|j|] == line + CRLF by {
      assert j <= s && s[from..|j|] == j[from..];
    }
    NextLineIs(s, from, line);
    if |suf| == 1 {
      assert pre + suf == pre + [line];
    } else {
      CompletesGot(s, NextCheck(check, NoRequest), pre + [line], rest);
      assert pre + suf == pre + [line] + rest;
    }
  }

  /** The parser answers GOT_REQUEST exactly on the streams that start with a request. */
  lemma GotRequestIff(s: bytes)
    ensures Parse(s).result == GotRequest <==> exists lines :: IsRequest(lines) && Join(lines) <= s
  {
    hide ParseFrom, Completes;
    assert Join([]) == s[..0];
    if Parse(s).result == GotRequest {
      var lines := GotCompletes(s, 0, ReqLine, []);
      assert [] + lines == lines;
      ParseJoins(s, 0, ReqLine, []);
      assert IsRequest(lines) && Join(lines) <= s;
    }
    if exists lines :: IsRequest(lines) && Join(lines) <= s {
      var lines :| IsRequest(lines) && Join(lines) <= s;
      assert [] + lines == lines;
      CompletesGot(s, ReqLine, [], lines);
    }
  }

  // ---- The other verdicts

  /** The lines leave the machine in state `check` undecided. */
  predicate Continues(check: CheckStat, lines: seq<bytes>)
    decreases |lines|
  {
    lines == [] ||
    (LF !in lines[0] && Judge(check, lines[0]) == NoRequest && Continues(NextCheck(check, NoRequest), lines[1..]))
  }

  lemma {:induction false} HeadersContinue(lines: seq<bytes>)
    ensures Continues(Header, lines) <==>
      (forall i :: 0 <= i < |lines| ==> LF !in lines[i]) && forall i :: 0 <= i < |lines| ==> IsHeader(lines[i])
  {
    if lines != [] {
      HeadersContinue(lines[1..]);
      assert forall i :: 1 <= i < |lines| ==> lines[i] == lines[1..][i - 1];
    }
  }

  /** They are the beginning of a request: nothing yet, or a start line and headers. */
  lemma BeginningShape(lines: seq<bytes>)
    ensures Continues(ReqLine, lines) <==>
      && (forall i :: 0 <= i < |lines| ==> 10 !in lines[i])
      && (lines != [] ==> exists p :: IsStartLine(lines[0], p))
      && (forall i :: 1 <= i < |lines| ==> lines[i] != [] && lines[i][0] != 0)
  {
    hide JudgeRequestLine, IsStartLine;
    if lines != [] {
      AcceptedIffGrammar(lines[0]);
      HeadersContinue(lines[1..]);
      assert forall i :: 1 <= i < |lines| ==> lines[i] == lines[1..][i - 1];
    }
  }

  function StateAfter(check: CheckStat, lines: seq<bytes>): CheckStat {
    if lines == [] then check else NextCheck(check, NoRequest)
  }

  lemma StatesMeet(check: CheckStat, lines: seq<bytes>)
    requires lines != [] && check != Entity
    ensures StateAfter(NextCheck(check, NoRequest), lines[1..]) == StateAfter(check, lines) == Header
  {
  }

  /** The parse is at the start of the line after `suf`. */
  lemma {:induction false} ContinuesParse(s: bytes, check: CheckStat, pre: seq<bytes>, suf: seq<bytes>)
    requires Continues(check, suf) && check != Entity && Join(pre + suf) <= s && |Join(pre)| <= |s|
    ensures ParseFrom(s, |Join(pre)|, check, pre, false) ==
      ParseFrom(s, |Join(pre + suf)|, StateAfter(check, suf), pre + suf, false)
    decreases |suf|
  {
    hide Judge, NextCheck, NextPiece, Join, StateAfter;
    if suf == [] {
      assert pre + suf == pre;
      assert StateAfter(check, []) == check by { NoState(check); }
    } else {
      var line, rest := suf[0], suf[1..];
      var from := |Join(pre)|;
      JoinCons(pre, line, rest);
      assert suf == [line] + rest;
      JoinSnoc(pre, line);
      var j := Join(pre + [line]);
      assert s[from..|j|] == line + CRLF by {
        assert j <= s && s[from..|j|] == j[from..];
      }
      NextLineIs(s, from, line);
      StatesMeet(check, suf);
      assert NextCheck(check, NoRequest) != Entity by { NeverEntity(check); }
      ContinuesParse(s, NextCheck(check, NoRequest), pre + [line], rest);
      assert pre + suf == pre + [line] + rest;
    }
  }

  lemma NoState(check: CheckStat)
    ensures StateAfter(check, []) == check
  {
  }

  lemma NeverEntity(check: CheckStat)
    requires check != Entity
    ensures NextCheck(check, NoRequest) != Entity
  {
  }

  /** Where a parse stops: after some undecided lines, at a piece that is no undecided line. */
  lemma {:induction false} ParseStops(s: bytes, from: nat, check: CheckStat, pre: seq<bytes>)
    returns (suf: seq<bytes>)
    requires from <= |s| && Join(pre) == s[..from] && check != Entity
    ensures Continues(check, suf) && Join(pre + suf) <= s
    ensures var c := NextPiece(s, |Join(pre + suf)|, false);
      c.Line? ==> LF !in c.line && Judge(StateAfter(check, suf), c.line) != NoRequest
    decreases |s| - from
  {
    hide Judge, NextCheck, NextPiece, Join, StateAfter;
    PieceJoins(s, from, pre);
    var c := NextPiece(s, from, false);
    if c.Line? && Judge(check, c.line) == NoRequest {
      NeverEntity(check);
      var rest := ParseStops(s, c.next, NextCheck(check, NoRequest), pre + [c.line]);
      suf := [c.line] + rest;
      StatesMeet(check, suf);
      assert pre + [c.line] + rest == pre + suf;
      assert suf[1..] == rest;
    } else {
      suf := [];
      assert pre + suf == pre;
      NoState(check);
    }
  }

  /** The stream starts with these lines and goes on with no line feed, or none that ends a line. */
  ghost predicate EndsUndecided(s: bytes, lines: seq<bytes>) {
    Continues(ReqLine, lines) && Join(lines) <= s && 10 !in s[|Join(lines)|..]
  }

  ghost predicate EndsInBareLf(s: bytes, lines: seq<bytes>, p: nat) {
    && Continues(ReqLine, lines) && Join(lines) <= s
    && |Join(lines)| <= p < |s| && s[p] == 10 && 10 !in s[|Join(lines)|..p]
    && (p > |Join(lines)| ==> s[p - 1] != 13)
  }

  ghost predicate StartsWithLine(s: bytes, line: bytes) { 10 !in line && line + [13, 10] <= s }

  lemma PieceOf(s: bytes, from: nat)
    requires from <= |s|
    ensures var c := NextPiece(s, from, false);
      && (c.Pending? <==> 10 !in s[from..])
      && (c.BareLf? ==> s[c.pos] == 10 && 10 !in s[from..c.pos] && (c.pos > from ==> s[c.pos - 1] != 13))
      && (c.Line? ==> LF !in c.line && s[from..c.next] == c.line + [13, 10])
  {
    var p := NextLf(s, from);
    assert forall k :: from <= k < p ==> s[k] == s[from..p][k - from] == s[from..][k - from];
    assert p < |s| ==> s[from..][p - from] == LF;
    if from < p < |s| && s[p - 1] == CR {
      assert s[from..p + 1] == s[from..p - 1] + [s[p - 1], s[p]];
      var w := s[from..p - 1];
      assert forall k :: 0 <= k < |w| ==> w[k] == s[from + k];
    }
  }

  lemma BareLfIs(s: bytes, from: nat, p: nat)
    requires from <= p < |s| && s[p] == 10 && 10 !in s[from..p] && (p > from ==> s[p - 1] != 13)
    ensures NextPiece(s, from, false) == BareLf(p)
  {
    assert forall k :: from <= k < p ==> s[k] == s[from..p][k - from];
    NoLf(s, from, p);
  }

  /** The four verdicts of the reference parser besides got-request, and where each comes from. */
  lemma VerdictIff(s: bytes)
    ensures Parse(s).result == NoRequest <==> exists lines :: EndsUndecided(s, lines)
    ensures Parse(s).result == BadRequest <==>
      (exists lines, p :: EndsInBareLf(s, lines, p)) ||
      exists line :: StartsWithLine(s, line) && JudgeRequestLine(line) == BadRequest
    ensures Parse(s).result == Undefined <==>
      exists line :: StartsWithLine(s, line) && JudgeRequestLine(line) == Undefined
  {
    hide ParseFrom, Continues, Judge, JudgeRequestLine, NextPiece, EndsUndecided, EndsInBareLf, StartsWithLine;
    StopGives(s);
    if exists lines :: EndsUndecided(s, lines) {
      var lines :| EndsUndecided(s, lines);
      UndecidedGives(s, lines);
    }
    if exists lines, p :: EndsInBareLf(s, lines, p) {
      var lines, p :| EndsInBareLf(s, lines, p);
      BareLfGives(s, lines, p);
    }
    if exists line :: StartsWithLine(s, line) && JudgeRequestLine(line) == BadRequest {
      var line :| StartsWithLine(s, line) && JudgeRequestLine(line) == BadRequest;
      StartLineGives(s, line);
    }
    if exists line :: StartsWithLine(s, line) && JudgeRequestLine(line) == Undefined {
      var line :| StartsWithLine(s, line) && JudgeRequestLine(line) == Undefined;
      StartLineGives(s, line);
    }
  }

  lemma UndecidedGives(s: bytes, lines: seq<bytes>)
    requires EndsUndecided(s, lines)
    ensures Parse(s).result == NoRequest
  {
    hide Continues, NextPiece;
    EmptyJoin();
    assert [] + lines == lines;
    ContinuesParse(s, ReqLine, [], lines);
    PieceOf(s, |Join(lines)|);
  }

  lemma BareLfGives(s: bytes, lines: seq<bytes>, p: nat)
    requires EndsInBareLf(s, lines, p)
    ensures Parse(s).result == BadRequest
  {
    hide Continues, NextPiece;
    EmptyJoin();
    assert [] + lines == lines;
    ContinuesParse(s, ReqLine, [], lines);
    BareLfIs(s, |Join(lines)|, p);
  }

  lemma StartLineGives(s: bytes, line: bytes)
    requires StartsWithLine(s, line) && JudgeRequestLine(line) != NoRequest
    ensures Parse(s).result == JudgeRequestLine(line)
  {
    hide JudgeRequestLine, NextPiece;
    NextLineIs(s, 0, line);
  }

  lemma StopGives(s: bytes)
    ensures Parse(s).result == NoRequest ==> exists lines :: EndsUndecided(s, lines)
    ensures Parse(s).result == BadRequest ==>
      (exists lines, p :: EndsInBareLf(s, lines, p)) ||
      exists line :: StartsWithLine(s, line) && JudgeRequestLine(line) == BadRequest
    ensures Parse(s).result == Undefined ==>
      exists line :: StartsWithLine(s, line) && JudgeRequestLine(line) == Undefined
  {
    hide Continues, JudgeRequestLine, NextPiece, Join;
    assert Join([]) == [] == s[..0] by { EmptyJoin(); }
    var lines := ParseStops(s, 0, ReqLine, []);
    assert [] + lines == lines;
    ContinuesParse(s, ReqLine, [], lines);
    var from := |Join(lines)|;
    PieceOf(s, from);
    var c := NextPiece(s, from, false);
    match c
    case Pending => assert EndsUndecided(s, lines);
    case BareLf(p) => assert EndsInBareLf(s, lines, p);
    case Line(line, next) =>
      if lines == [] {
        assert s[0..next] == line + [13, 10];
        assert StartsWithLine(s, line);
      }
  }

  lemma PendingInside(t: bytes, from: nat, line: bytes)
    requires from <= |t| < from + |line| + 2 && t[from..] <= line + CRLF && LF !in line
    ensures NextPiece(t, from, false) == Pending
  {
    var w := t[from..];
    assert forall k :: 0 <= k < |w| ==> w[k] == (line + CRLF)[k] != LF;
    assert forall k :: from <= k < |t| ==> t[k] == w[k - from];
    NoLf(t, from, |t|);
  }

  /** On every proper prefix of a request the parser is still undecided. */
  lemma {:induction false} NotBeforeTheEnd(t: bytes, check: CheckStat, pre: seq<bytes>, suf: seq<bytes>)
    requires Completes(check, suf) && Join(pre) <= t < Join(pre + suf)
    ensures ParseFrom(t, |Join(pre)|, check, pre, false).result == NoRequest
    decreases |suf|
  {
    hide Judge, NextCheck, NextPiece, Join;
    var line, rest := suf[0], suf[1..];
    var from := |Join(pre)|;
    JoinCons(pre, line, rest);
    assert suf == [line] + rest;
    JoinSnoc(pre, line);
    var j := Join(pre + [line]);
    assert j[from..] == line + CRLF;
    if |t| < |j| {
      assert t <= j;
      assert t[from..] <= j[from..];
      PendingInside(t, from, line);
    } else {
      assert j <= t;
      assert t[from..|j|] == j[from..];
      NextLineIs(t, from, line);
      assert |suf| == 1 ==> pre + suf == pre + [line];
      assert pre + suf == pre + [line] + rest;
      NotBeforeTheEnd(t, NextCheck(check, NoRequest), pre + [line], rest);
    }
  }

  lemma {:induction false} CompletesNoLf(check: CheckStat, lines: seq<bytes>)
    requires Completes(check, lines)
    ensures forall i :: 0 <= i < |lines| ==> LF !in lines[i]
    decreases |lines|
  {
    hide Judge, NextCheck;
    if |lines| > 1 {
      CompletesNoLf(NextCheck(check, NoRequest), lines[1..]);
      assert forall i :: 1 <= i < |lines| ==> lines[i] == lines[1..][i - 1];
    }
  }

  lemma {:induction false} JoinSafe(lines: seq<bytes>)
    requires forall i :: 0 <= i < |lines| ==> LF !in lines[i]
    ensures EveryLfAfterCr(Join(lines))
  {
    if lines != [] {
      var n := |lines| - 1;
      JoinSafe(lines[..n]);
      SafeAppend(Join(lines[..n]), lines[n]);
    }
  }

  lemma SafeAppend(a: bytes, line: bytes)
    requires EveryLfAfterCr(a) && LF !in line
    ensures EveryLfAfterCr(a + line + CRLF)
  {
    var j := a + line + CRLF;
    assert forall p :: 0 <= p < |a| ==> j[p] == a[p];
    assert forall k :: 0 <= k < |line| ==> line[k] in line && j[|a| + k] == line[k];
    assert forall p :: |a| <= p < |a| + |line| ==> j[p] == line[p - |a|];
  }

  /** No batch that goes on with a request can hit a pending CR: every line feed up to the end of `j` has its CR. */
  lemma NoHitInside(j: bytes, s: bytes, b: bytes)
    requires EveryLfAfterCr(j) && j != [] && j[|j| - 1] == LF
    requires s < j && (s + b <= j || j <= s + b)
    ensures !StaleHit(s, b)
  {
    hide NextLf;
    var t := s + b;
    var p := NextLf(t, |s|);
    assert forall i :: 0 <= i < |t| && i < |j| ==> t[i] == j[i];
    assert |j| <= |t| ==> t[|j| - 1] == LF;
  }

  lemma JoinEndsInLf(lines: seq<bytes>)
    requires lines != []
    ensures Join(lines) != [] && Join(lines)[|Join(lines)| - 1] == LF
  {
  }

  lemma {:induction false} NotStaleAt(lines: seq<bytes>, bs: seq<bytes>, k: nat)
    requires IsRequest(lines) && (Concat(bs) <= Join(lines) || Join(lines) <= Concat(bs)) && k < |bs|
    ensures !StaleAt(bs, k)
  {
    hide ParseFrom, Completes, StaleHit, Join, Concat;
    var j, s, b, u := Join(lines), Concat(bs[..k]), bs[k], Concat(bs);
    ConcatSplits(bs, k);
    assert s <= s + b <= u;
    assert Join([]) == [] by { EmptyJoin(); }
    assert [] + lines == lines;
    if j <= s {
      CompletesGot(s, ReqLine, [], lines);
    } else {
      assert lines != [] by { RequestParts(lines); }
      CompletesNoLf(ReqLine, lines);
      JoinSafe(lines);
      JoinEndsInLf(lines);
      NoHitInside(j, s, b);
    }
  }

  /**
   Completeness and earliest decision: in whatever batches a request arrives, and whatever comes
   after it, the machine is undecided until the batch that brings its last byte, and answers then
   with its lines and both cursors just past it.
   */
  lemma RecognisedOnLastByte(lines: seq<bytes>, bs: seq<bytes>)
    requires IsRequest(lines) && (Concat(bs) <= Join(lines) || Join(lines) <= Concat(bs))
    ensures var o, n := CutParse(bs), |Join(lines)|;
      if Join(lines) <= Concat(bs) then
        o.result == GotRequest && o.lines == lines && o.linest == o.checked == n
      else o.result == NoRequest
  {
    hide ParseFrom, Completes, StaleAt, Join, Concat;
    forall k | 0 <= k < |bs|
      ensures !StaleAt(bs, k)
    {
      NotStaleAt(lines, bs, k);
    }
    CutParseStep(bs);
    assert Join([]) == [] by { EmptyJoin(); }
    assert [] + lines == lines;
    if Join(lines) <= Concat(bs) {
      CompletesGot(Concat(bs), ReqLine, [], lines);
    } else {
      NotBeforeTheEnd(Concat(bs), ReqLine, [], lines);
    }
  }

  lemma StandardRequestLine(uri: bytes, version: bytes)
    requires uri != [] && NoBlank(uri) && NUL !in uri && LF !in uri
    requires version == HTTP_1_0 || version == HTTP_1_1
    ensures var line := GET + [SP] + uri + [SP] + version; JudgeRequestLine(line) == NoRequest && LF !in line
  {
    hide FirstBlank, CString, JudgeRequestLine;
    var line := GET + [SP] + uri + [SP] + version;
    assert NUL !in line && LF !in line;
    assert CString(line) == line;
    var p := Parts(GET, SP, uri, SP, version, []);
    assert line == p.method_ + [p.blank1] + p.uri + [p.blank2] + p.version + p.tail;
    GrammarAccepted(line, p);
  }

  /** The standard request of section 5.1 of RFC 2616 is one of them. */
  lemma StandardRequest(uri: bytes, version: bytes, headers: seq<bytes>)
    requires uri != [] && NoBlank(uri) && NUL !in uri && LF !in uri
    requires version == HTTP_1_0 || version == HTTP_1_1
    requires forall i :: 0 <= i < |headers| ==> IsHeader(headers[i]) && LF !in headers[i]
    ensures IsRequest([GET + [SP] + uri + [SP] + version] + headers + [[]])
  {
    hide JudgeRequestLine, Completes;
    StandardRequestLine(uri, version);
    var lines := [GET + [SP] + uri + [SP] + version] + headers + [[]];
    assert forall i :: 1 <= i < |lines| - 1 ==> lines[i] == headers[i - 1];
    RequestParts(lines);
  }
}
