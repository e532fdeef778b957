/** The two C string functions the line parsers call, over a buffer, with the proof that they stay inside the string. */
module CStrings {
  import opened RequestLine

  datatype Pointer = Null | To(idx: nat)

  /** A NUL-terminated line lies at `p` in `buf`: the scans below read no further than its terminator. */
  ghost predicate LineAt(buf: array<byte>, p: nat, line: bytes)
    reads buf
  {
    p + |line| < buf.Length && buf[p..p + |line|] == line && buf[p + |line|] == NUL
  }

  /** strncasecmp(t, lit, n) == 0 for a literal without NUL: letter by letter, on the first `n` bytes. */
  ghost predicate NCaseEq(t: bytes, lit: bytes, n: nat) {
    SameLetters(if n < |t| then t[..n] else t, if n < |lit| then lit[..n] else lit)
  }

  lemma {:induction false} CStringDrop(line: bytes, k: nat)
    requires k <= |CString(line)|
    ensures CString(line[k..]) == CString(line)[k..]
    decreases k
  {
    if k > 0 {
      CStringDrop(line[1..], k - 1);
      assert line[1..][k - 1..] == line[k..];
    } else {
      assert line[0..] == line;
    }
  }

  lemma LineAtDrop(buf: array<byte>, p: nat, line: bytes, k: nat)
    requires LineAt(buf, p, line) && k <= |line|
    ensures LineAt(buf, p + k, line[k..])
  {
    assert buf[p + k..p + |line|] == buf[p..p + |line|][k..];
  }

  lemma FitsIn(buf: array<byte>, p: nat, line: bytes)
    requires LineAt(buf, p, line)
    ensures |CString(line)| <= |line| < buf.Length
  {
  }

  lemma MethodTest(t: bytes, n: nat)
    requires n < |t|
    ensures NCaseEq(t, GET, n) <==> IsMethod(t[..n])
  {
    FoldsAre(t[..n], if n < |GET| then GET[..n] else GET);
    assert n == 3 ==> GET[..n] == GET;
  }

  lemma WholeTest(t: bytes, n: nat)
    requires |t| <= n && 3 <= n
    ensures NCaseEq(t, GET, n) <==> SameFold(t, GET)
  {
    FoldsAre(t, GET);
  }

  lemma VersionTest(v: bytes, lit: bytes)
    requires |lit| == 8
    ensures NCaseEq(v, lit, 8) <==> StartsFold(v, lit)
  {
    FoldsAre(if 8 < |v| then v[..8] else v, lit);
  }

  lemma FirstBlankIs(t: bytes, i: nat)
    requires i <= |t| && (forall k :: 0 <= k < i ==> !IsBlank(t[k])) && (i == |t| || IsBlank(t[i]))
    ensures FirstBlank(t) == i
  {
    hide FirstBlank;
    var j := FirstBlank(t);
    assert forall k :: 0 <= k < j ==> t[k] == t[..j][k];
  }

  /** strpbrk(p, " \t"). */
  method StrPbrk(buf: array<byte>, p: nat, ghost line: bytes) returns (q: Pointer)
    requires LineAt(buf, p, line)
    ensures var t := CString(line); var i := FirstBlank(t);
      q == if i < |t| then To(p + i) else Null
  {
    var i := p;
    while buf[i] != NUL
      invariant p <= i <= p + |line|
      invariant forall k :: 0 <= k < i - p ==> line[k] != NUL && !IsBlank(line[k])
      invariant i < p + |line| ==> buf[i] == line[i - p]
      decreases p + |line| - i
    {
      if IsBlank(buf[i]) {
        BlankFound(line, i - p);
        return To(i);
      }
      i := i + 1;
      assert i < p + |line| ==> buf[i] == buf[p..p + |line|][i - p];
    }
    CStringIs(line, i - p);
    FirstBlankIs(line[..i - p], i - p);
    q := Null;
  }

  lemma BlankFound(line: bytes, i: nat)
    requires i < |line| && IsBlank(line[i])
    requires forall k :: 0 <= k < i ==> line[k] != NUL && !IsBlank(line[k])
    ensures |CString(line)| > i && FirstBlank(CString(line)) == i
  {
    hide CString;
    var t := CString(line);
    assert i < |t| ==> t[i] == line[i];
    FirstBlankIs(t, i);
  }

  /** Whether strncasecmp(p, lit, n) == 0. */
  method StrNCaseEq(buf: array<byte>, p: nat, ghost line: bytes, lit: bytes, n: nat) returns (eq: bool)
    requires LineAt(buf, p, line) && NUL !in lit
    ensures eq == NCaseEq(CString(line), lit, n)
  {
    hide CString;
    ghost var t := CString(line);
    assert forall k :: 0 <= k < |t| ==> buf[p + k] == buf[p..p + |line|][k] == t[k] && t[k] in t;
    assert buf[p + |t|] == NUL by {
      assert |t| < |line| ==> buf[p + |t|] == buf[p..p + |line|][|t|];
    }
    var i := 0;
    while i < n
      invariant 0 <= i <= n && i <= |t| && i <= |lit|
      invariant forall k :: 0 <= k < i ==> SameLetter(t[k], lit[k])
    {
      var c := if i < |lit| then lit[i] else NUL;
      assert i < |lit| ==> lit[i] in lit;
      FoldIs(buf[p + i], c);
      if Fold(buf[p + i]) != Fold(c) {
        assert i < |t| && i < |lit| ==> !SameLetter(t[i], lit[i]);
        return false;
      }
      if buf[p + i] == NUL {
        return true;
      }
      i := i + 1;
    }
    eq := true;
  }
}
