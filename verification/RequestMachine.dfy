/** The request parser as the program runs it: cursors and a buffer updated in place. */
module RequestMachine {
  import opened RequestLine
  import opened StreamParse
  import opened CStrings
  import opened RequestGrammar
  import opened ClientEnd

  const BUF_SIZE := 2048

  datatype LineStat = Ok | Open | WaitingN | Bad

  /** What recv gives: -1 with or without EAGAIN, or the bytes it wrote (none for a return of 0). */
  datatype RecvResult = Failed(again: bool) | Data(b: bytes)

  /** The batches that a series of answers has brought. */
  function Delivered(answers: seq<RecvResult>): seq<bytes> {
    if answers == [] then []
    else
      var r := answers[|answers| - 1];
      Delivered(answers[..|answers| - 1]) + if r.Data? && r.b != [] then [r.b] else []
  }

  lemma DeliveredNext(answers: seq<RecvResult>, r: RecvResult)
    ensures Delivered(answers + [r]) == Delivered(answers) + if r.Data? && r.b != [] then [r.b] else []
  {
    assert (answers + [r])[..|answers|] == answers;
  }

  /** Answers after which a receive loop goes on. */
  ghost predicate AllBatches(answers: seq<RecvResult>) {
    forall i :: 0 <= i < |answers| ==> answers[i].Data? && answers[i].b != []
  }

  /** The other end of a connection. It decides how its stream is cut and whether a call fails. */
  class Peer {
    const stream: bytes
    var taken: nat
    ghost var answers: seq<RecvResult>  // what the calls of recv returned

    constructor (stream: bytes)
      ensures this.stream == stream && taken == 0 && answers == []
    {
      this.stream := stream;
      taken := 0;
      answers := [];
    }

    method Recv(room: nat) returns (r: RecvResult)
      requires taken <= |stream|
      modifies this
      ensures taken <= |stream| && answers == old(answers) + [r]
      ensures r.Data? ==> |r.b| <= room && taken == old(taken) + |r.b| && r.b == stream[old(taken)..taken]
      ensures r == Data([]) <==> !r.Failed? && (room == 0 || old(taken) == |stream|)
      ensures r.Failed? ==> taken == old(taken)
    {
      var left := |stream| - taken;
      var max := if room < left then room else left;
      if * {
        var again: bool := *;
        r := Failed(again);
      } else if max == 0 {
        r := Data([]);
      } else {
        var n :| 1 <= n <= max;
        r := Data(stream[taken..taken + n]);
        taken := taken + n;
      }
      answers := answers + [r];
    }
  }

  /** The lines with their terminators overwritten by NUL. */
  function Blanked(lines: seq<bytes>): bytes {
    if lines == [] then [] else Blanked(lines[..|lines| - 1]) + lines[|lines| - 1] + [NUL, NUL]
  }

  /** The verdict on everything a peer sends before it closes the connection. */
  function Verdict(stream: bytes): Code {
    var s := if |stream| <= BUF_SIZE then stream else stream[..BUF_SIZE];
    if Parse(s).result == NoRequest then DoneRecv else Parse(s).result
  }

  /**
   What one scan for a line end does to the buffer and the cursor: a line's two last bytes are
   blanked and passed over, a bare line feed stops the cursor, a CR at the end holds it back.
   */
  ghost predicate Scanned(s: bytes, from: nat, stale: bool, before: bytes, stat: LineStat, checked: nat, after: bytes)
    requires from <= |s| <= |before|
  {
    match NextPiece(s, from, stale)
    case Line(_, next) => stat == Ok && checked == next && after == before[next - 2 := NUL][next - 1 := NUL]
    case BareLf(p) => stat == Bad && checked == p && after == before
    case Pending =>
      var waiting := from < |s| && EndsInCr(s);
      && stat == (if waiting then WaitingN else Open)
      && checked == Kept(s, from)
      && after == before
  }

  /** The unread part of the stream `s` stands in the buffer `b`. */
  ghost predicate Holds(s: bytes, from: nat, b: bytes) {
    from <= |s| <= |b| && b[from..|s|] == s[from..]
  }

  predicate NoLfIn(b: bytes, from: nat, to: nat)
    requires to <= |b|
  {
    forall k :: from <= k < to ==> b[k] != LF
  }

  /** The scan has passed position `i` of the `read` bytes without finding a line end. */
  ghost predicate Passed(b: bytes, from: nat, i: nat, read: nat)
    requires i <= read <= |b|
  {
    && NoLfIn(b, from, i)
    && (from < i && b[i - 1] == CR ==> i < read && b[i] != LF)
  }

  lemma PassedNext(b: bytes, from: nat, i: nat, read: nat)
    requires i < read <= |b| && Passed(b, from, i, read)
    requires b[i] != LF && (b[i] == CR ==> i + 1 < read && b[i + 1] != LF)
    ensures Passed(b, from, i + 1, read)
  {
  }

  lemma HeldBytes(s: bytes, from: nat, b: bytes)
    requires Holds(s, from, b)
    ensures forall k :: from <= k < |s| ==> b[k] == s[k]
  {
    assert forall k :: from <= k < |s| ==> b[k] == b[from..|s|][k - from] == s[from..][k - from];
  }

  lemma ScannedCrLf(s: bytes, from: nat, p: nat, stale: bool, b: bytes)
    requires Holds(s, from, b) && from <= p && p + 1 < |s| && Passed(b, from, p, |s|)
    requires b[p] == CR && b[p + 1] == LF
    ensures Scanned(s, from, stale, b, Ok, p + 2, b[p := NUL][p + 1 := NUL])
  {
    HeldBytes(s, from, b);
    NoLf(s, from, p + 1);
  }

  lemma ScannedLf(s: bytes, from: nat, p: nat, stale: bool, b: bytes)
    requires Holds(s, from, b) && from <= p < |s| && Passed(b, from, p, |s|)
    requires b[p] == LF
    ensures !stale ==> Scanned(s, from, stale, b, Bad, p, b)
    ensures stale && from < p ==> Scanned(s, from, stale, b, Ok, p + 1, b[p - 1 := NUL][p := NUL])
  {
    HeldBytes(s, from, b);
    NoLf(s, from, p);
  }

  lemma ScannedCr(s: bytes, from: nat, stale: bool, b: bytes)
    requires Holds(s, from, b) && from < |s| && Passed(b, from, |s| - 1, |s|)
    requires b[|s| - 1] == CR
    ensures Scanned(s, from, stale, b, WaitingN, |s| - 1, b)
  {
    HeldBytes(s, from, b);
    NoLf(s, from, |s|);
  }

  lemma ScannedAll(s: bytes, from: nat, stale: bool, b: bytes)
    requires Holds(s, from, b) && Passed(b, from, |s|, |s|)
    ensures Scanned(s, from, stale, b, Open, |s|, b)
  {
    HeldBytes(s, from, b);
    NoLf(s, from, |s|);
  }

  lemma BlankedSnoc(lines: seq<bytes>, line: bytes)
    ensures Blanked(lines + [line]) == Blanked(lines) + line + [NUL, NUL]
  {
    assert (lines + [line])[..|lines|] == lines;
  }

  lemma BlankTail(before: bytes, from: nat, next: nat, after: bytes)
    requires from + 2 <= next <= |before| && after == before[next - 2 := NUL][next - 1 := NUL]
    ensures after[..next] == before[..from] + after[from..next - 2] + [NUL, NUL]
  {
    assert after[..from] == before[..from];
    assert after[..next] == after[..from] + after[from..next - 2] + after[next - 2..next];
  }

  /** The buffer after a line of the stream has been blanked. */
  lemma LineBlanked(s: bytes, from: nat, stale: bool, before: bytes, after: bytes, lines: seq<bytes>)
    requires Holds(s, from, before) && before[..from] == Blanked(lines)
    requires var c := NextPiece(s, from, stale); c.Line? && after == before[c.next - 2 := NUL][c.next - 1 := NUL]
    ensures var Line(line, next) := NextPiece(s, from, stale);
      && Holds(s, next, after) && after[..next] == Blanked(lines + [line])
      && after[from..from + |line|] == line && after[from + |line|] == NUL
      && forall i :: |s| <= i < |after| ==> after[i] == before[i]
  {
    var Line(line, next) := NextPiece(s, from, stale);
    BlankedSnoc(lines, line);
    HeldBytes(s, from, before);
    assert after[from..next - 2] == s[from..next - 2] == line;
    BlankTail(before, from, next, after);
  }

  lemma PendingPiece(s: bytes, from: nat, stale: bool)
    requires from <= |s|
    ensures NextPiece(s, from, stale) == Pending ==> forall k :: from <= k < |s| ==> s[k] != LF
  {
  }

  /** Where the cursor waits when no line feed is left: on a CR at the very end, or at the end. */
  function Kept(s: bytes, from: nat): int { if from < |s| && EndsInCr(s) then |s| - 1 else |s| }

  /** One unfolding of the parse. */
  lemma ParsePiece(s: bytes, from: nat, check: CheckStat, lines: seq<bytes>, stale: bool)
    requires from <= |s|
    ensures var c, o := NextPiece(s, from, stale), ParseFrom(s, from, check, lines, stale);
      && (c.Pending? ==> o == Outcome(NoRequest, check, from, Kept(s, from), lines))
      && (c.BareLf? ==> o == Outcome(BadRequest, check, from, c.pos, lines))
      && (c.Line? ==> var verdict := Judge(check, c.line);
          if verdict != NoRequest then o == Outcome(verdict, check, c.next, c.next, lines + [c.line])
          else o == ParseFrom(s, c.next, NextCheck(check, verdict), lines + [c.line], false))
  {
  }

  /** A parse never answers with the two codes that recv alone sets. */
  lemma {:induction false} ParseVerdicts(s: bytes, from: nat, check: CheckStat, lines: seq<bytes>, stale: bool)
    requires from <= |s| && check != Entity
    ensures var o := ParseFrom(s, from, check, lines, stale);
      o.result != DoneRecv && o.result != InternalError
    decreases |s| - from
  {
    hide NextPiece;
    var c := NextPiece(s, from, stale);
    if c.Line? && Judge(check, c.line) == NoRequest {
      ParseVerdicts(s, c.next, NextCheck(check, NoRequest), lines + [c.line], false);
    }
  }

  /** How the machine's last code relates to the verdict on the whole stream. */
  lemma FinalVerdict(bs: seq<bytes>, stream: bytes, result: Code)
    requires |Concat(bs)| <= |stream| && |Concat(bs)| <= BUF_SIZE && Concat(bs) == stream[..|Concat(bs)|]
    requires result != NoRequest
    requires CutParse(bs).result == if result == DoneRecv || result == InternalError then NoRequest else result
    requires result == DoneRecv ==> |Concat(bs)| == BUF_SIZE || |Concat(bs)| == |stream|
    ensures result != InternalError && !StaleCut(bs) ==> result == Verdict(stream)
  {
    hide ParseFrom, CutParse, Concat, StaleCut;
    CutParseStep(bs);
    var s := if |stream| <= BUF_SIZE then stream else stream[..BUF_SIZE];
    var n := |Concat(bs)|;
    assert s[..n] == Concat(bs);
    ParseExtends(s[..n], s[n..], 0, ReqLine, []);
    assert s[..n] + s[n..] == s;
    if result == DoneRecv {
      assert s[..n] == s;
    }
  }

  /** A request at the start of the stream has been answered exactly when its last byte has been received. */
  lemma AnsweredIff(bs: seq<bytes>, stream: bytes, result: Code, lines: seq<bytes>)
    requires |Concat(bs)| <= |stream| && Concat(bs) == stream[..|Concat(bs)|]
    requires CutParse(bs).result == if result == DoneRecv || result == InternalError then NoRequest else result
    requires IsRequest(lines) && Join(lines) <= stream
    ensures result == GotRequest <==> |Join(lines)| <= |Concat(bs)|
    ensures |Concat(bs)| < |Join(lines)| ==> CutParse(bs).result == NoRequest
  {
    hide CutParse, Concat, Completes, Join;
    RecognisedOnLastByte(lines, bs);
    var n := |Concat(bs)|;
    assert if n <= |Join(lines)| then Concat(bs) <= Join(lines) else Join(lines) <= Concat(bs);
  }

  /** A request at the start of the stream is answered, however it arrives, unless recv fails. */
  lemma RequestAnswered(bs: seq<bytes>, stream: bytes, result: Code, lines: seq<bytes>)
    requires |Concat(bs)| <= |stream| && |Concat(bs)| <= BUF_SIZE && Concat(bs) == stream[..|Concat(bs)|]
    requires result != NoRequest
    requires CutParse(bs).result == if result == DoneRecv || result == InternalError then NoRequest else result
    requires result == DoneRecv ==> |Concat(bs)| == BUF_SIZE || |Concat(bs)| == |stream|
    requires IsRequest(lines) && Join(lines) <= stream && |Join(lines)| <= BUF_SIZE
    ensures result == GotRequest || result == InternalError
  {
    hide CutParse, Concat, Completes, Join;
    AnsweredIff(bs, stream, result, lines);
  }

  /** Appending a batch and feeding it is one more step of the parse in batches. */
  lemma FeedAppends(bs: seq<bytes>, b: bytes)
    ensures Concat(bs + [b]) == Concat(bs) + b
    ensures CutParse(bs + [b]) == Feed(Concat(bs), CutParse(bs), b)
  {
    assert (bs + [b])[..|bs|] == bs;
  }

  class ReqStatMach {
    var sockfd: int
    var readIdx: nat
    var checkedIdx: nat
    var linestIdx: nat
    var lastlineStat: LineStat
    var checkStat: CheckStat
    var result: Code
    const recvbuf: array<byte>

    ghost var batches: seq<bytes>  // what recv has delivered
    ghost var lines: seq<bytes>    // the raw lines handed to the line parsers
    ghost var steps: nat           // iterations of the line scan

    ghost function Received(): bytes
      reads this`batches
    {
      Concat(batches)
    }

    ghost function Reached(): Outcome
      reads this`linestIdx, this`checkedIdx, this`checkStat, this`result, this`lines
    {
      Outcome(result, checkStat, linestIdx, checkedIdx, lines)
    }

    /** The buffer: completed lines blanked in place, then the received bytes, then zeros. */
    ghost predicate Layout()
      reads this`linestIdx, this`checkedIdx, this`readIdx, this`lines, this`batches, recvbuf
      ensures Layout() ==> linestIdx <= checkedIdx <= readIdx == |Received()| <= BUF_SIZE == recvbuf.Length
    {
      && recvbuf.Length == BUF_SIZE
      && linestIdx <= checkedIdx <= readIdx == |Received()| <= BUF_SIZE
      && recvbuf[..linestIdx] == Blanked(lines)
      && Holds(Received(), linestIdx, recvbuf[..])
      && forall i :: readIdx <= i < BUF_SIZE ==> recvbuf[i] == NUL
    }

    /** The scan may resume at checkedIdx: everything from the line start to there holds no line feed. */
    ghost predicate Scannable()
      reads this`linestIdx, this`checkedIdx, this`readIdx, this`checkStat, this`lastlineStat, recvbuf
      requires linestIdx <= checkedIdx <= readIdx <= recvbuf.Length
    {
      && checkStat != Entity
      && Passed(recvbuf[..], linestIdx, checkedIdx, readIdx)
      && (lastlineStat == WaitingN ==> checkedIdx < readIdx && recvbuf[checkedIdx] == CR)
    }

    /** Between batches the scan has used up everything but a CR at the very end. */
    ghost predicate Rested()
      reads this`linestIdx, this`checkedIdx, this`readIdx, this`batches, this`checkStat, this`lastlineStat
      requires linestIdx <= checkedIdx <= readIdx == |Received()|
    {
      var s := Received();
      && checkStat != Entity
      && (forall k :: linestIdx <= k < readIdx ==> s[k] != LF)
      && (lastlineStat == WaitingN <==> checkedIdx < readIdx)
      && (checkedIdx < readIdx ==> checkedIdx == readIdx - 1 && s[checkedIdx] == CR)
      && (linestIdx < readIdx == checkedIdx ==> s[readIdx - 1] != CR)
    }

    ghost predicate Valid()
      reads this`linestIdx, this`checkedIdx, this`readIdx, this`lastlineStat, this`checkStat, this`result,
            this`lines, this`batches, this`steps, recvbuf
    {
      && Layout()
      && (result == NoRequest ==> Rested())
      && |batches| <= readIdx
      && steps <= checkedIdx + |batches|
      && CutParse(batches) == (if result == DoneRecv || result == InternalError
                               then Reached().(result := NoRequest) else Reached())
    }

    constructor ()
      ensures sockfd == -1 && recvbuf.Length == BUF_SIZE && fresh(recvbuf)
      ensures lastlineStat == Ok && checkStat == ReqLine && result == NoRequest
    {
      sockfd := -1;
      lastlineStat, checkStat, result := Ok, ReqLine, NoRequest;
      recvbuf := new byte[BUF_SIZE];
    }

    lemma NothingYet()
      requires recvbuf.Length == BUF_SIZE && readIdx == checkedIdx == linestIdx == 0
      requires forall i :: 0 <= i < recvbuf.Length ==> recvbuf[i] == NUL
      requires lastlineStat == Ok && checkStat == ReqLine && lines == batches == []
      ensures Layout() && Rested()
    {
    }

    method Init(fd: int)
      requires recvbuf.Length == BUF_SIZE
      modifies this, recvbuf
      ensures Valid() && sockfd == fd && result == NoRequest && batches == []
    {
      hide Layout, Rested, Concat, Blanked;
      sockfd := fd;
      readIdx, checkedIdx, linestIdx := 0, 0, 0;
      lastlineStat, checkStat, result := Ok, ReqLine, NoRequest;
      Clear();
      batches, lines, steps := [], [], 0;
      NothingYet();
    }

    method Clear()
      modifies recvbuf
      ensures forall i :: 0 <= i < recvbuf.Length ==> recvbuf[i] == NUL
    {
      forall i | 0 <= i < recvbuf.Length {
        recvbuf[i] := NUL;
      }
    }

    lemma Unread()
      requires Layout()
      ensures Holds(Received(), linestIdx, recvbuf[..])
      ensures linestIdx <= checkedIdx <= readIdx == |Received()| <= recvbuf.Length
    {
    }

    /** Overwrite the two bytes that end a line and step past them. */
    method Terminate(p: nat)
      requires p + 1 < recvbuf.Length
      modifies this`checkedIdx, recvbuf
      ensures checkedIdx == p + 2 && recvbuf[..] == old(recvbuf[..])[p := NUL][p + 1 := NUL]
    {
      recvbuf[p] := NUL;
      recvbuf[p + 1] := NUL;
      checkedIdx := p + 2;
    }

    method CheckOneLine() returns (stat: LineStat, ghost n: nat)
      requires Layout() && Scannable()
      modifies this`checkedIdx, recvbuf
      ensures old(checkedIdx) <= checkedIdx <= readIdx
      ensures n <= checkedIdx - old(checkedIdx) + if stat == Ok then 0 else 1
      ensures Scanned(Received(), linestIdx, lastlineStat == WaitingN, old(recvbuf[..]), stat, checkedIdx, recvbuf[..])
    {
      hide Scanned, Layout, Holds, Passed, Concat;
      ghost var s, b := Received(), recvbuf[..];
      ghost var stale := lastlineStat == WaitingN;
      Unread();
      n := 0;
      while checkedIdx < readIdx
        invariant old(checkedIdx) <= checkedIdx <= readIdx
        invariant recvbuf[..] == b
        invariant Passed(b, linestIdx, checkedIdx, readIdx)
        invariant n <= checkedIdx - old(checkedIdx)
      {
        n := n + 1;
        var c := recvbuf[checkedIdx];
        if c == CR {
          if checkedIdx + 1 == readIdx {
            ScannedCr(s, linestIdx, stale, b);
            return WaitingN, n;
          } else if recvbuf[checkedIdx + 1] == LF {
            ScannedCrLf(s, linestIdx, checkedIdx, stale, b);
            Terminate(checkedIdx);
            return Ok, n;
          }
        } else if c == LF {
          ScannedLf(s, linestIdx, checkedIdx, stale, b);
          if lastlineStat == WaitingN {
            Terminate(checkedIdx - 1);
            return Ok, n;
          } else {
            return Bad, n;
          }
        }
        PassedNext(b, linestIdx, checkedIdx, readIdx);
        checkedIdx := checkedIdx + 1;
      }
      ScannedAll(s, linestIdx, stale, b);
      stat := Open;
    }

    method ParseRequestUri(p: nat, ghost line: bytes) returns (r: Code)
      requires LineAt(recvbuf, p, line)
      ensures r == JudgeRequestLine(line)
    {
      hide CString, FirstBlank, NCaseEq, SameFold, IsMethod, StartsFold, LineAt;
      ghost var t := CString(line);

      // Parse method
      var methodEnd := StrPbrk(recvbuf, p, line);
      // A null end makes the count wrap around to more than any string holds.
      var n := if methodEnd.Null? then |GET| + recvbuf.Length else methodEnd.idx - p;
      var isGet := StrNCaseEq(recvbuf, p, line, GET, n);
      if methodEnd.Null? {
        FitsIn(recvbuf, p, line);
        WholeTest(t, n);
      } else {
        MethodTest(t, n);
      }
      if !isGet {
        return BadRequest;
      }
      if methodEnd.Null? {
        return Undefined;
      }

      // Parse URI
      var q := methodEnd.idx + 1;
      ghost var rest := line[n + 1..];
      CStringDrop(line, n + 1);
      LineAtDrop(recvbuf, p, line, n + 1);
      var uriEnd := StrPbrk(recvbuf, q, rest);
      if uriEnd.Null? || uriEnd.idx <= q {
        return BadRequest;
      }

      // Parse HTTP Version
      var v := uriEnd.idx + 1;
      ghost var last := rest[v - q..];
      CStringDrop(rest, v - q);
      LineAtDrop(recvbuf, q, rest, v - q);
      VersionTest(CString(last), HTTP_1_1);
      VersionTest(CString(last), HTTP_1_0);
      var is11 := StrNCaseEq(recvbuf, v, last, HTTP_1_1, 8);
      if is11 {
        return NoRequest;
      }
      var is10 := StrNCaseEq(recvbuf, v, last, HTTP_1_0, 8);
      r := if is10 then NoRequest else BadRequest;
    }

    method ParseHeaders(p: nat, ghost line: bytes) returns (r: Code)
      requires LineAt(recvbuf, p, line)
      ensures r == JudgeHeader(line)
    {
      assert line != [] ==> recvbuf[p] == recvbuf[p..p + |line|][0];
      r := if recvbuf[p] == NUL then GotRequest else NoRequest;
    }

    /** A line has just been scanned: it stands NUL-terminated from the line start, and the cursor is past it. */
    ghost predicate LineReady(line: bytes)
      reads this`linestIdx, this`checkedIdx, this`readIdx, this`lines, this`batches, recvbuf
    {
      && recvbuf.Length == BUF_SIZE
      && linestIdx + |line| + 2 == checkedIdx <= readIdx == |Received()| <= BUF_SIZE
      && LineAt(recvbuf, linestIdx, line)
      && recvbuf[..checkedIdx] == Blanked(lines + [line])
      && Holds(Received(), checkedIdx, recvbuf[..])
      && forall i :: readIdx <= i < BUF_SIZE ==> recvbuf[i] == NUL
    }

    lemma NotEntity()
      requires Layout() && Scannable()
      ensures checkStat != Entity
    {
    }

    lemma LayoutBuffer()
      requires Layout()
      ensures Holds(Received(), linestIdx, recvbuf[..]) && recvbuf[..][..linestIdx] == Blanked(lines)
      ensures forall i :: readIdx <= i < BUF_SIZE ==> recvbuf[..][i] == NUL
    {
      assert recvbuf[..][..linestIdx] == recvbuf[..linestIdx];
    }

    /** The outcomes of a scan, in terms of the buffer before it. */
    lemma AfterScan(stale: bool, before: bytes)
      requires recvbuf.Length == BUF_SIZE == |before| && linestIdx <= readIdx == |Received()| <= BUF_SIZE
      requires Holds(Received(), linestIdx, before) && before[..linestIdx] == Blanked(lines)
      requires forall i :: readIdx <= i < BUF_SIZE ==> before[i] == NUL
      requires Scanned(Received(), linestIdx, stale, before, lastlineStat, checkedIdx, recvbuf[..])
      requires checkStat != Entity
      ensures var piece := NextPiece(Received(), linestIdx, stale);
        match lastlineStat
        case Ok => piece.Line? && checkedIdx == piece.next && LineReady(piece.line)
        case Bad => piece == BareLf(checkedIdx) && Layout()
        case _ => piece == Pending && Layout() && Rested() && checkedIdx == Kept(Received(), linestIdx)
    {
      hide NextPiece, Concat;
      var s := Received();
      if lastlineStat == Ok {
        LineBlanked(s, linestIdx, stale, before, recvbuf[..], lines);
        assert forall i :: readIdx <= i < BUF_SIZE ==> recvbuf[i] == recvbuf[..][i];
      } else {
        assert recvbuf[..] == before;
        PendingPiece(s, linestIdx, stale);
      }
    }

    /** Scan for the next line and keep what the scan found. */
    method ScanLine() returns (ghost line: bytes)
      requires Layout() && Scannable()
      modifies this`checkedIdx, this`lastlineStat, this`steps, recvbuf
      ensures old(checkedIdx) <= checkedIdx
      ensures steps <= old(steps) + checkedIdx - old(checkedIdx) + if lastlineStat == Ok then 0 else 1
      ensures var piece := NextPiece(Received(), linestIdx, old(lastlineStat) == WaitingN);
        match lastlineStat
        case Ok => piece == Line(line, checkedIdx) && LineReady(line)
        case Bad => piece == BareLf(checkedIdx) && Layout()
        case _ => piece == Pending && Layout() && Rested() && checkedIdx == Kept(Received(), linestIdx)
    {
      hide NextPiece, Concat, Holds, LineReady, Layout, Scanned, Scannable, Rested, Kept;
      ghost var before, stale := recvbuf[..], lastlineStat == WaitingN;
      LayoutBuffer();
      NotEntity();
      ghost var n;
      lastlineStat, n := CheckOneLine();
      steps := steps + n;
      AfterScan(stale, before);
      ghost var piece := NextPiece(Received(), linestIdx, stale);
      line := if piece.Line? then piece.line else [];
    }

    /** The dispatch on check_stat for one completed line. */
    method TakeLine(ghost line: bytes)
      requires LineReady(line) && checkStat != Entity && lastlineStat == Ok
      modifies this`linestIdx, this`checkStat, this`result, this`lines
      ensures Layout() && Scannable() && linestIdx == checkedIdx && lines == old(lines) + [line]
      ensures result == Judge(old(checkStat), line) && checkStat == NextCheck(old(checkStat), result) != Entity
      ensures result != NoRequest ==> checkStat == old(checkStat)
    {
      hide JudgeRequestLine, JudgeHeader, Blanked, Concat;
      var curLine := linestIdx;
      linestIdx := checkedIdx;
      match checkStat {
        case ReqLine =>
          result := ParseRequestUri(curLine, line);
          if result == NoRequest {
            checkStat := Header;
          }
        case Header =>
          result := ParseHeaders(curLine, line);
        case Entity =>
          assert false;
      }
      lines := lines + [line];
    }

    method ParseBatch()
      requires Layout() && Scannable() && result == NoRequest
      modifies this`checkedIdx, this`linestIdx, this`lastlineStat, this`checkStat, this`result, this`lines,
               this`steps, recvbuf
      ensures Layout()
      ensures Reached() ==
        ParseFrom(Received(), old(linestIdx), old(checkStat), old(lines), old(lastlineStat) == WaitingN)
      ensures result == NoRequest ==> Rested()
      ensures steps <= old(steps) + checkedIdx - old(checkedIdx) + 1
    {
      hide Judge, NextCheck, NextPiece, Concat, LineReady, Layout, Scannable, Rested, ParseFrom, Kept;
      ghost var s := Received();
      ghost var goal := ParseFrom(s, linestIdx, checkStat, lines, lastlineStat == WaitingN);
      while true
        invariant Layout() && Scannable() && result == NoRequest
        invariant goal == ParseFrom(s, linestIdx, checkStat, lines, lastlineStat == WaitingN)
        invariant old(checkedIdx) <= checkedIdx
        invariant steps <= old(steps) + checkedIdx - old(checkedIdx)
        decreases readIdx - linestIdx
      {
        NotEntity();
        ParsePiece(s, linestIdx, checkStat, lines, lastlineStat == WaitingN);
        ghost var line := ScanLine();
        if lastlineStat != Ok {
          break;
        }
        TakeLine(line);
        if result != NoRequest {
          return;
        }
      }
      if lastlineStat == Bad {
        result := BadRequest;
      }
    }

    /** What a caller needs of Valid. */
    lemma ValidMeans()
      requires Valid()
      ensures |batches| <= readIdx == |Received()| <= BUF_SIZE == recvbuf.Length
      ensures steps <= readIdx + |batches|
      ensures CutParse(batches).result == if result == DoneRecv || result == InternalError then NoRequest else result
    {
    }

    /** recv ends the run: nothing but the code changes. */
    method Stop(code: Code)
      requires Valid() && result == NoRequest && (code == DoneRecv || code == InternalError)
      modifies this`result
      ensures Valid() && result == code
    {
      hide Layout, CutParse;
      result := code;
    }

    /** recv has written a batch behind the received bytes: the scan can go on where it rested. */
    lemma BatchArrived(s: bytes, b: bytes, before: bytes)
      requires recvbuf.Length == BUF_SIZE == |before|
      requires linestIdx <= checkedIdx <= |s| && readIdx == |s| + |b| <= BUF_SIZE && b != []
      requires Received() == s + b && Holds(s, linestIdx, before) && before[..linestIdx] == Blanked(lines)
      requires forall i :: |s| <= i < BUF_SIZE ==> before[i] == NUL
      requires recvbuf[..] == before[..|s|] + b + before[readIdx..]
      requires checkStat != Entity && (forall k :: linestIdx <= k < |s| ==> s[k] != LF)
      requires lastlineStat == WaitingN <==> checkedIdx < |s|
      requires checkedIdx < |s| ==> checkedIdx == |s| - 1 && s[checkedIdx] == CR
      requires linestIdx < |s| == checkedIdx ==> s[|s| - 1] != CR
      ensures Layout() && Scannable()
    {
      hide Blanked, Concat;
      var after := recvbuf[..];
      HeldBytes(s, linestIdx, before);
      assert forall i :: 0 <= i < |s| ==> after[i] == before[i];
      assert after[|s|..readIdx] == b;
      assert after[linestIdx..readIdx] == (s + b)[linestIdx..];
      assert recvbuf[..linestIdx] == before[..linestIdx];
      assert forall i :: readIdx <= i < BUF_SIZE ==> recvbuf[i] == after[i] == before[i];
    }

    method AcceptBatch(b: bytes)
      requires Valid() && result == NoRequest && b != [] && readIdx + |b| <= BUF_SIZE
      modifies this`readIdx, this`batches, this`checkedIdx, this`linestIdx, this`lastlineStat, this`checkStat,
               this`result, this`lines, this`steps, recvbuf
      ensures Valid() && batches == old(batches) + [b] && readIdx == old(readIdx) + |b|
      ensures result != DoneRecv && result != InternalError
    {
      hide Layout, Scannable, Blanked, Holds, Concat, CutParse, ParseFrom;
      ghost var s, before := Received(), recvbuf[..];
      LayoutBuffer();
      Write(b);
      readIdx := readIdx + |b|;
      batches := batches + [b];
      FeedAppends(old(batches), b);
      BatchArrived(s, b, before);
      ParseVerdicts(Received(), linestIdx, checkStat, lines, lastlineStat == WaitingN);
      ParseBatch();
    }

    method Write(b: bytes)
      requires readIdx + |b| <= recvbuf.Length
      modifies recvbuf
      ensures recvbuf[..] == old(recvbuf[..])[..readIdx] + b + old(recvbuf[..])[readIdx + |b|..]
    {
      forall i | 0 <= i < |b| {
        recvbuf[readIdx + i] := b[i];
      }
    }

    /** RecvAndParse, the step of the blocking driver. */
    method RecvAndParse(peer: Peer)
      requires Valid() && result == NoRequest
      requires peer.taken == readIdx <= |peer.stream| && Received() == peer.stream[..readIdx]
      modifies this, recvbuf, peer
      ensures Valid() && peer.taken == readIdx <= |peer.stream| && Received() == peer.stream[..readIdx]
      ensures sockfd == old(sockfd)
      ensures readIdx >= old(readIdx) && (result == NoRequest ==> readIdx > old(readIdx))
      ensures |peer.answers| == |old(peer.answers)| + 1 && old(peer.answers) <= peer.answers
      ensures var r := peer.answers[|old(peer.answers)|];
        && (result == InternalError <==> r.Failed?)
        && (result == DoneRecv <==> r == Data([]))
        && batches == old(batches) + if r.Data? && r.b != [] then [r.b] else []
      ensures result == DoneRecv ==> readIdx == BUF_SIZE || readIdx == |peer.stream|
    {
      hide Valid, Concat;
      ValidMeans();
      var r := peer.Recv(BUF_SIZE - readIdx);
      match r {
        case Failed(_) =>
          Stop(InternalError);
        case Data(b) =>
          if b == [] {
            Stop(DoneRecv);
          } else {
            FeedAppends(batches, b);
            AcceptBatch(b);
          }
      }
    }

    /**
     The blocking driver: one connection from accept to the final verdict, for whatever way
     the peer's stream is cut and wherever recv fails.
     */
    method HandleConnection(fd: int, peer: Peer) returns (ghost run: seq<RecvResult>)
      requires recvbuf.Length == BUF_SIZE && peer.taken == 0
      modifies this, recvbuf, peer
      ensures Valid() && result != NoRequest && sockfd == fd
      ensures readIdx <= |peer.stream| && Received() == peer.stream[..readIdx]
      ensures peer.answers == old(peer.answers) + run && batches == Delivered(run)
      ensures 0 < |run| <= readIdx + 1 <= 2049 && AllBatches(run[..|run| - 1])
      ensures result == InternalError <==> run[|run| - 1].Failed?
      ensures result == DoneRecv <==> run[|run| - 1] == Data([])
      ensures result == DoneRecv ==> readIdx == 2048 || readIdx == |peer.stream|
      ensures !run[|run| - 1].Failed? && !StaleCut(batches) ==> result == Verdict(peer.stream)
      ensures forall lines ::
        IsRequest(lines) && Join(lines) <= peer.stream && |Join(lines)| <= 2048 && !run[|run| - 1].Failed? ==>
          result == GotRequest
      ensures steps <= readIdx + |batches|
    {
      hide Valid, StaleCut, Verdict, CutParse, Concat, Completes, Join, Delivered;
      Init(fd);
      ValidMeans();
      run := [];
      NothingDelivered();
      assert peer.stream[..0] == [] && Received() == [];
      while result == NoRequest
        invariant Valid() && sockfd == fd
        invariant peer.taken == readIdx <= |peer.stream| && Received() == peer.stream[..readIdx]
        invariant readIdx <= BUF_SIZE
        invariant peer.answers == old(peer.answers) + run && batches == Delivered(run)
        invariant |run| <= readIdx + if result == NoRequest then 0 else 1
        invariant result == NoRequest ==> AllBatches(run)
        invariant result != NoRequest ==> run != [] && AllBatches(run[..|run| - 1])
        invariant result != NoRequest ==> (result == InternalError <==> run[|run| - 1].Failed?)
        invariant result != NoRequest ==> (result == DoneRecv <==> run[|run| - 1] == Data([]))
        invariant result == DoneRecv ==> readIdx == BUF_SIZE || readIdx == |peer.stream|
        decreases BUF_SIZE - readIdx, if result == NoRequest then 1 else 0
      {
        RecvAndParse(peer);
        ValidMeans();
        var r := peer.answers[|old(peer.answers) + run|];
        DeliveredNext(run, r);
        assert (run + [r])[..|run|] == run;
        run := run + [r];
      }
      ValidMeans();
      FinalVerdict(batches, peer.stream, result);
      forall lines | IsRequest(lines) && Join(lines) <= peer.stream && |Join(lines)| <= BUF_SIZE
        ensures result == GotRequest || result == InternalError
      {
        RequestAnswered(batches, peer.stream, result, lines);
      }
    }

    static lemma NothingDelivered()
      ensures Delivered([]) == [] && Concat([]) == []
    {
    }

    /** What one answer of recv does; `more` is whether the receive loop looks at the code again. */
    method Digest(r: RecvResult) returns (more: bool)
      requires Valid() && result == NoRequest && (r.Data? ==> readIdx + |r.b| <= BUF_SIZE)
      modifies this`readIdx, this`checkedIdx, this`linestIdx, this`lastlineStat, this`checkStat, this`result,
               this`batches, this`lines, this`steps, recvbuf
      ensures Valid() && more == (r.Data? && r.b != [])
      ensures batches == old(batches) + if more then [r.b] else []
      ensures Received() == old(Received()) + if more then r.b else []
      ensures readIdx == old(readIdx) + if more then |r.b| else 0
      ensures result == NoRequest ==> more || r == Failed(true)
      ensures r.Failed? ==> result == if r.again then NoRequest else InternalError
      ensures (result == InternalError <==> r == Failed(false)) && (result == DoneRecv <==> r == Data([]))
    {
      hide Valid, Concat;
      more := false;
      if r.Failed? {
        if !r.again {
          Stop(InternalError);
        }
      } else if r.b == [] {
        Stop(DoneRecv);
      } else {
        FeedAppends(batches, r.b);
        AcceptBatch(r.b);
        more := true;
      }
    }

    /** The stream up to `n`, with the next batch. */
    static lemma NextBytes(stream: bytes, n: nat, b: bytes)
      requires n + |b| <= |stream| && b == stream[n..n + |b|]
      ensures stream[..n] + b == stream[..n + |b|]
    {
    }

    /** One round of the receive loop, on a descriptor that has not been forgotten. */
    method ReceiveOnce(peer: Peer) returns (more: bool, ghost r: RecvResult)
      requires Valid() && result == NoRequest
      requires peer.taken == readIdx <= |peer.stream| && Received() == peer.stream[..readIdx]
      modifies this`readIdx, this`checkedIdx, this`linestIdx, this`lastlineStat, this`checkStat, this`result,
               this`batches, this`lines, this`steps, recvbuf, peer
      ensures Valid()
      ensures peer.taken == readIdx <= |peer.stream| && Received() == peer.stream[..readIdx]
      ensures peer.answers == old(peer.answers) + [r]
      ensures more == (r.Data? && r.b != []) && batches == old(batches) + if more then [r.b] else []
      ensures more ==> readIdx > old(readIdx)
      ensures result == NoRequest ==> more || r == Failed(true)
      ensures r == Failed(true) ==> result == NoRequest
      ensures (result == InternalError <==> r == Failed(false)) && (result == DoneRecv <==> r == Data([]))
      ensures result == DoneRecv ==> readIdx == BUF_SIZE || readIdx == |peer.stream|
    {
      hide Valid, Concat, CutParse;
      ValidMeans();
      var answer := peer.Recv(BUF_SIZE - readIdx);
      if answer.Data? {
        NextBytes(peer.stream, readIdx, answer.b);
      }
      more := Digest(answer);
      r := answer;
    }

    /** What the answers `run` of the receive loop make of the code. */
    static ghost predicate Decides(run: seq<RecvResult>, code: Code) {
      && run != [] && AllBatches(run[..|run| - 1])
      && var last := run[|run| - 1];
         && (code == NoRequest <==> last == Failed(true))
         && (code == InternalError <==> last == Failed(false))
         && (code == DoneRecv <==> last == Data([]))
    }

    static lemma DecidesNext(run: seq<RecvResult>, r: RecvResult, code: Code)
      requires AllBatches(run)
      requires code == NoRequest <==> r == Failed(true)
      requires code == InternalError <==> r == Failed(false)
      requires code == DoneRecv <==> r == Data([])
      ensures Decides(run + [r], code)
    {
      assert (run + [r])[..|run|] == run;
    }

    static lemma BatchesNext(run: seq<RecvResult>, r: RecvResult)
      requires AllBatches(run) && r.Data? && r.b != []
      ensures AllBatches(run + [r])
    {
    }

    /** The receive loop of the non-blocking driver. */
    method Receive(peer: Peer) returns (ghost run: seq<RecvResult>)
      requires Valid()
      requires peer.taken == readIdx <= |peer.stream| && Received() == peer.stream[..readIdx]
      modifies this`readIdx, this`checkedIdx, this`linestIdx, this`lastlineStat, this`checkStat, this`result,
               this`batches, this`lines, this`steps, recvbuf, peer
      ensures Valid() && CanEnd(sockfd, old(result), result)
      ensures peer.taken == readIdx <= |peer.stream| && Received() == peer.stream[..readIdx]
      ensures peer.answers == old(peer.answers) + run && batches == old(batches) + Delivered(run)
      ensures if old(result) == NoRequest && sockfd != -1 then Decides(run, result) else run == []
      ensures old(result) == NoRequest && result == DoneRecv ==> readIdx == BUF_SIZE || readIdx == |peer.stream|
    {
      hide Valid, Concat, CutParse, Delivered, Decides, AllBatches;
      ValidMeans();
      run := [];
      NothingDelivered();
      assert AllBatches(run) by { NoBatches(); }
      while result == NoRequest
        invariant Valid()
        invariant peer.taken == readIdx <= |peer.stream| && Received() == peer.stream[..readIdx]
        invariant readIdx <= BUF_SIZE
        invariant peer.answers == old(peer.answers) + run && batches == old(batches) + Delivered(run)
        invariant sockfd == -1 || old(result) != NoRequest ==> result == old(result) && run == []
        invariant result == NoRequest ==> AllBatches(run)
        invariant old(result) == NoRequest && result != NoRequest ==> Decides(run, result) && result != DoneRecv
        decreases BUF_SIZE - readIdx, if result == NoRequest then 1 else 0
      {
        if sockfd == -1 {
          Stop(InternalError);  // recv fails with EBADF
          break;
        }
        var more;
        ghost var r;
        more, r := ReceiveOnce(peer);
        ValidMeans();
        DeliveredNext(run, r);
        if result != NoRequest || !more {
          DecidesNext(run, r, result);
        } else {
          BatchesNext(run, r);
        }
        run := run + [r];
        if !more {
          break;
        }
      }
    }

    static lemma NoBatches()
      ensures AllBatches([])
    {
    }

    /**
     The non-blocking driver: receive until a decision or until recv would block, then close the
     connection unless it is undecided. Either way the machine forgets its descriptor, unless
     the process has died on the way.
     */
    method Process(peer: Peer) returns (closed: int, ghost run: seq<RecvResult>)
      requires Valid()
      requires peer.taken == readIdx <= |peer.stream| && Received() == peer.stream[..readIdx]
      modifies this, recvbuf, peer
      ensures Valid() && CanEnd(old(sockfd), old(result), result)
      ensures closed == ClosedFd(old(sockfd), result)
      ensures closed == if result == NoRequest || result == Undefined then -1 else old(sockfd)
      ensures sockfd == if result == Undefined then old(sockfd) else -1
      ensures peer.taken == readIdx <= |peer.stream| && Received() == peer.stream[..readIdx]
      ensures peer.answers == old(peer.answers) + run && batches == old(batches) + Delivered(run)
      ensures old(result) != NoRequest ==> run == [] && result == old(result)
      ensures old(result) == NoRequest && old(sockfd) == -1 ==> run == [] && result == InternalError
      ensures old(result) == NoRequest && old(sockfd) != -1 ==> run != [] && AllBatches(run[..|run| - 1])
      ensures run != [] ==> (result == NoRequest <==> run[|run| - 1] == Failed(true))
      ensures run != [] ==> (result == InternalError <==> run[|run| - 1] == Failed(false))
      ensures run != [] ==> (result == DoneRecv <==> run[|run| - 1] == Data([]))
      ensures result == DoneRecv && run != [] ==> readIdx == 2048 || readIdx == |peer.stream|
      ensures forall lines :: IsRequest(lines) && Join(lines) <= peer.stream ==>
        (result == GotRequest <==> |Join(lines)| <= readIdx)
      ensures run != [] && !StaleCut(batches) ==>
        result == InternalError || result == NoRequest || result == Verdict(peer.stream)
    {
      hide Valid, StaleCut, Verdict, CutParse, Concat, Completes, Join, AllBatches, Delivered;
      run := Receive(peer);
      ValidMeans();
      if old(result) == NoRequest && result != NoRequest {
        FinalVerdict(batches, peer.stream, result);
      }
      forall lines | IsRequest(lines) && Join(lines) <= peer.stream
        ensures result == GotRequest <==> |Join(lines)| <= readIdx
      {
        AnsweredIff(batches, peer.stream, result, lines);
      }
      if result == Undefined {
        closed := -1;
        return;
      }
      closed := if result == NoRequest then -1 else sockfd;
      sockfd := -1;
    }
  }
}
