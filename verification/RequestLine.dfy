/** Bytes as the parser sees them, and the verdict on one completed line. */
module RequestLine {

  type byte = b: int | 0 <= b < 0x100
  type bytes = seq<byte>

  const NUL: byte := 0
  const TAB: byte := 9
  const LF: byte := 10
  const CR: byte := 13
  const SP: byte := 32

  const GET: bytes := [71, 69, 84]
  const HTTP_1_0: bytes := [72, 84, 84, 80, 47, 49, 46, 48]
  const HTTP_1_1: bytes := [72, 84, 84, 80, 47, 49, 46, 49]

  /** RESULT_CODE, plus Undefined for the run that dereferences a pointer derived from null. */
  datatype Code = NoRequest | GotRequest | DoneRecv | BadRequest | InternalError | Undefined

  datatype CheckStat = ReqLine | Header | Entity

  predicate IsBlank(b: byte) { b == SP || b == TAB }

  /** tolower in the C locale. */
  function Fold(b: byte): byte { if 65 <= b <= 90 then b + 32 else b }

  predicate SameFold(s: bytes, t: bytes) {
    |s| == |t| && forall i :: 0 <= i < |s| ==> Fold(s[i]) == Fold(t[i])
  }

  predicate StartsFold(s: bytes, t: bytes) {
    |t| <= |s| && SameFold(s[..|t|], t)
  }

  predicate IsVersion(v: bytes) { SameFold(v, HTTP_1_1) || SameFold(v, HTTP_1_0) }

  predicate NoBlank(s: bytes) { forall i :: 0 <= i < |s| ==> !IsBlank(s[i]) }

  /** The method test: any prefix of GET in any case, the empty one included. */
  predicate IsMethod(m: bytes) { |m| <= |GET| && SameFold(m, GET[..|m|]) }

  /** The part of a line that C string functions see. */
  function CString(line: bytes): (t: bytes)
    ensures t <= line && NUL !in t
    ensures |t| < |line| ==> line[|t|] == NUL
  {
    if line == [] || line[0] == NUL then [] else [line[0]] + CString(line[1..])
  }

  /** Index of the first blank, or |t|. */
  function FirstBlank(t: bytes): (i: nat)
    ensures i <= |t| && NoBlank(t[..i])
    ensures i < |t| ==> IsBlank(t[i])
  {
    if t == [] || IsBlank(t[0]) then 0 else 1 + FirstBlank(t[1..])
  }

  function JudgeRequestLine(line: bytes): Code {
    var t := CString(line);
    var m := FirstBlank(t);
    if m == |t| then
      if SameFold(t, GET) then Undefined else BadRequest
    else if !IsMethod(t[..m]) then BadRequest
    else JudgeUri(t[m + 1..])
  }

  function JudgeUri(rest: bytes): Code {
    var u := FirstBlank(rest);
    if u == |rest| || u == 0 then BadRequest else JudgeVersion(rest[u + 1..])
  }

  function JudgeVersion(v: bytes): Code {
    if StartsFold(v, HTTP_1_1) || StartsFold(v, HTTP_1_0) then NoRequest else BadRequest
  }

  function JudgeHeader(line: bytes): Code {
    if CString(line) == [] then GotRequest else NoRequest
  }

  function Judge(check: CheckStat, line: bytes): Code {
    match check
    case ReqLine => JudgeRequestLine(line)
    case Header => JudgeHeader(line)
    case Entity => InternalError
  }

  function NextCheck(check: CheckStat, verdict: Code): CheckStat {
    if check == ReqLine && verdict == NoRequest then Header else check
  }

  /** The request-line grammar the code accepts. */
  datatype Parts = Parts(method_: bytes, blank1: byte, uri: bytes, blank2: byte, version: bytes, tail: bytes)

  ghost predicate IsRequestLine(t: bytes, p: Parts) {
    && t == p.method_ + [p.blank1] + p.uri + [p.blank2] + p.version + p.tail
    && IsMethod(p.method_) && NoBlank(p.method_)
    && IsBlank(p.blank1) && IsBlank(p.blank2)
    && p.uri != [] && NoBlank(p.uri)
    && IsVersion(p.version)
  }

  lemma FirstBlankUnique(a: bytes, b: byte, rest: bytes)
    requires NoBlank(a) && IsBlank(b)
    ensures FirstBlank(a + [b] + rest) == |a|
  {
    var t := a + [b] + rest;
    assert t[|a|] == b;
    assert forall k :: 0 <= k < |a| ==> t[k] == a[k];
    assert forall k :: 0 <= k < FirstBlank(t) ==> t[..FirstBlank(t)][k] == t[k];
  }

  /** The cascade of pointer tests accepts exactly the C strings that have these parts. */
  lemma AcceptedIffParts(line: bytes)
    ensures JudgeRequestLine(line) == NoRequest <==> exists p :: IsRequestLine(CString(line), p)
  {
    if JudgeRequestLine(line) == NoRequest {
      var p := AcceptedSplits(line);
      assert exists q :: IsRequestLine(CString(line), q);
    }
    if exists p :: IsRequestLine(CString(line), p) {
      var p :| IsRequestLine(CString(line), p);
      GrammarAccepted(line, p);
    }
  }

  lemma AcceptedSplits(line: bytes) returns (p: Parts)
    requires JudgeRequestLine(line) == NoRequest
    ensures IsRequestLine(CString(line), p)
  {
    hide FirstBlank, CString;
    var t := CString(line);
    var m := FirstBlank(t);
    var rest := t[m + 1..];
    var u := FirstBlank(rest);
    var v := rest[u + 1..];
    p := Parts(t[..m], t[m], rest[..u], rest[u], v[..8], v[8..]);
    SplitTwice(t, m, u, 8);
  }

  lemma SplitTwice(t: bytes, m: nat, u: nat, n: nat)
    requires m < |t| && u < |t[m + 1..]| && n <= |t[m + 1..][u + 1..]|
    ensures var rest := t[m + 1..]; var v := rest[u + 1..];
      t == t[..m] + [t[m]] + rest[..u] + [rest[u]] + v[..n] + v[n..]
  {
  }

  lemma GrammarAccepted(line: bytes, p: Parts)
    requires IsRequestLine(CString(line), p)
    ensures JudgeRequestLine(line) == NoRequest
  {
    hide FirstBlank, CString, IsVersion, JudgeUri;
    var t := CString(line);
    var rest := p.uri + [p.blank2] + (p.version + p.tail);
    assert t == p.method_ + [p.blank1] + rest;
    FirstBlankUnique(p.method_, p.blank1, rest);
    assert t[..|p.method_|] == p.method_;
    assert t[|p.method_| + 1..] == rest;
    UriAccepted(p);
  }

  lemma UriAccepted(p: Parts)
    requires p.uri != [] && NoBlank(p.uri) && IsBlank(p.blank2) && IsVersion(p.version)
    ensures JudgeUri(p.uri + [p.blank2] + (p.version + p.tail)) == NoRequest
  {
    hide FirstBlank;
    var v := p.version + p.tail;
    var rest := p.uri + [p.blank2] + v;
    FirstBlankUnique(p.uri, p.blank2, v);
    assert rest[|p.uri| + 1..] == v;
    assert v[..8] == p.version;
  }

  lemma CStringIs(line: bytes, n: nat)
    requires n <= |line| && (forall k :: 0 <= k < n ==> line[k] != NUL) && (n == |line| || line[n] == NUL)
    ensures CString(line) == line[..n]
  {
    hide CString;
    var t := CString(line);
    assert forall k :: 0 <= k < |t| ==> t[k] == line[k] && t[k] in t;
  }

  // ---- The same over bytes

  /** Equal, or the two cases of one ASCII letter. */
  predicate SameLetter(a: byte, b: byte) {
    || a == b
    || (65 <= a <= 90 && b == a + 32)
    || (65 <= b <= 90 && a == b + 32)
  }

  predicate SameLetters(s: bytes, t: bytes) {
    |s| == |t| && forall i :: 0 <= i < |s| ==> SameLetter(s[i], t[i])
  }

  lemma FoldIs(a: byte, b: byte)
    ensures Fold(a) == Fold(b) <==> SameLetter(a, b)
  {
  }

  /** "GET" and, with either last digit, "HTTP/1.0" and "HTTP/1.1": the bytes allowed at each place. */
  const GET_BYTES: seq<set<byte>> := [{71, 103}, {69, 101}, {84, 116}]
  const HTTP_BYTES: seq<set<byte>> :=
    [{72, 104}, {84, 116}, {84, 116}, {80, 112}, {47}, {49}, {46}, {48, 49}]

  /** The bytes of `s` are allowed at the first places of `word`. */
  ghost predicate Spells(s: bytes, word: seq<set<byte>>) {
    |s| <= |word| && forall i :: 0 <= i < |s| ==> s[i] in word[i]
  }

  /** The line, up to its end or a NUL, is made of these parts. */
  ghost predicate IsStartLine(line: bytes, p: Parts) {
    var t := p.method_ + [p.blank1] + p.uri + [p.blank2] + p.version + p.tail;
    && t <= line && 0 !in t && (|t| < |line| ==> line[|t|] == 0)
    && Spells(p.method_, GET_BYTES)
    && p.blank1 in {9, 32} && p.blank2 in {9, 32}
    && p.uri != [] && 9 !in p.uri && 32 !in p.uri
    && |p.version| == 8 && Spells(p.version, HTTP_BYTES)
  }

  lemma MethodBytes(m: bytes)
    ensures IsMethod(m) <==> Spells(m, GET_BYTES)
    ensures Spells(m, GET_BYTES) ==> NoBlank(m)
  {
    assert forall i :: 0 <= i < |m| && i < 3 ==> (Fold(m[i]) == Fold(GET[i]) <==> m[i] in GET_BYTES[i]);
  }

  lemma VersionBytes(v: bytes)
    ensures IsVersion(v) <==> |v| == 8 && Spells(v, HTTP_BYTES)
  {
    if |v| == 8 {
      assert forall i :: 0 <= i < 7 ==> (Fold(v[i]) == Fold(HTTP_1_1[i]) <==> v[i] in HTTP_BYTES[i]);
      assert forall i :: 0 <= i < 7 ==> HTTP_1_0[i] == HTTP_1_1[i];
      assert Fold(v[7]) == Fold(HTTP_1_1[7]) || Fold(v[7]) == Fold(HTTP_1_0[7]) <==> v[7] in HTTP_BYTES[7];
    }
  }

  lemma BlankBytes(s: bytes)
    ensures NoBlank(s) <==> 9 !in s && 32 !in s
  {
  }

  lemma SameGrammar(line: bytes, p: Parts)
    ensures IsRequestLine(CString(line), p) <==> IsStartLine(line, p)
  {
    hide CString, IsMethod, IsVersion, NoBlank, Spells;
    var t := p.method_ + [p.blank1] + p.uri + [p.blank2] + p.version + p.tail;
    MethodBytes(p.method_);
    VersionBytes(p.version);
    BlankBytes(p.uri);
    if t <= line && 0 !in t && (|t| < |line| ==> line[|t|] == 0) {
      assert forall k :: 0 <= k < |t| ==> line[k] == t[k] && t[k] in t;
      CStringIs(line, |t|);
    }
  }

  /** The request-line parser accepts exactly the lines of a grammar over bytes. */
  lemma AcceptedIffGrammar(line: bytes)
    ensures JudgeRequestLine(line) == NoRequest <==> exists p :: IsStartLine(line, p)
  {
    hide CString, JudgeRequestLine, IsRequestLine, IsStartLine;
    AcceptedIffParts(line);
    if exists p :: IsRequestLine(CString(line), p) {
      var p :| IsRequestLine(CString(line), p);
      SameGrammar(line, p);
    }
    if exists p :: IsStartLine(line, p) {
      var p :| IsStartLine(line, p);
      SameGrammar(line, p);
    }
  }

  lemma UndefinedIffFolds(line: bytes)
    ensures JudgeRequestLine(line) == Undefined <==> SameFold(CString(line), GET)
  {
    var t := CString(line);
    assert FirstBlank(t) < |t| && |t| == 3 ==> Fold(t[FirstBlank(t)]) != Fold(GET[FirstBlank(t)]);
  }

  /** The one line on which the code's behaviour is undefined is a bare GET. */
  lemma UndefinedIffBareGet(line: bytes)
    ensures JudgeRequestLine(line) == Undefined <==>
      |line| >= 3 && Spells(line[..3], GET_BYTES) && (|line| == 3 || line[3] == 0)
  {
    hide JudgeRequestLine, CString, SameFold, Spells;
    var t := CString(line);
    UndefinedIffFolds(line);
    FoldsGet(t);
    if |line| >= 3 && (|line| == 3 || line[3] == 0) && Spells(line[..3], GET_BYTES) {
      SpellsNoNul(line[..3]);
      assert forall k :: 0 <= k < 3 ==> line[k] == line[..3][k];
      CStringIs(line, 3);
    }
    assert |t| == 3 ==> t == line[..3];
  }

  lemma FoldsGet(t: bytes)
    ensures SameFold(t, GET) <==> |t| == 3 && Spells(t, GET_BYTES)
  {
    MethodBytes(t);
  }

  lemma SpellsNoNul(t: bytes)
    requires Spells(t, GET_BYTES)
    ensures forall k :: 0 <= k < |t| ==> t[k] != NUL
  {
  }

  lemma FoldsAre(a: bytes, b: bytes)
    ensures SameFold(a, b) <==> SameLetters(a, b)
  {
    forall i | 0 <= i < |a| && i < |b|
      ensures Fold(a[i]) == Fold(b[i]) <==> SameLetter(a[i], b[i])
    {
      FoldIs(a[i], b[i]);
    }
  }
}
