/** Seeking to the last lines of a log, internal/engine/streams.go: the file is searched backwards
    in chunks that share one buffer. */
module SeekTail {
  class File {
    const content: seq<char>
    var offset: nat

    constructor (content: seq<char>)
      ensures this.content == content && offset == 0
    {
      this.content := content;
      offset := 0;
    }

    method ReadAt(buf: array<char>, size: nat, pos: nat)
      requires size <= buf.Length && pos + size <= |content|
      modifies buf
      ensures buf[..size] == content[pos..pos + size]
    {
      for i := 0 to size
        invariant buf[..i] == content[pos..pos + i]
      {
        buf[i] := content[pos + i];
      }
    }
  }

  /** Newlines at or after `k` and before the last byte. */
  function NewlinesFrom(s: seq<char>, k: nat): nat
    decreases |s| - k
  {
    if k + 1 >= |s| then 0 else (if s[k] == '\n' then 1 else 0) + NewlinesFrom(s, k + 1)
  }

  /** One past the n-th newline from the end, where a newline in the last byte does not count. */
  predicate AfterNth(s: seq<char>, n: int, offset: nat) {
    0 < offset < |s| && s[offset - 1] == '\n' && NewlinesFrom(s, offset - 1) == n
  }

  /** Every file, every count and every buffer size. */
  method Seek(f: File, n: int, buf: array<char>)
    requires buf.Length > 0
    modifies f`offset, buf
    ensures n == 0 ==> f.offset == |f.content|
    ensures n < 0 || NewlinesFrom(f.content, 0) < n ==> f.offset == 0
    ensures 0 < n <= NewlinesFrom(f.content, 0) ==> AfterNth(f.content, n, f.offset)
  {
    var end := |f.content|;
    f.offset := end;
    if n == 0 {
      return;
    }
    var pos, remaining := end, n;
    while pos > 0
      invariant 0 <= pos <= end
      invariant remaining == n - NewlinesFrom(f.content, pos) && (n > 0 ==> remaining > 0)
    {
      var size := if pos < buf.Length then pos else buf.Length;
      pos := pos - size;
      f.ReadAt(buf, size, pos);
      var i := size - 1;
      while i >= 0
        invariant -1 <= i < size
        invariant buf[..size] == f.content[pos..pos + size]
        invariant remaining == n - NewlinesFrom(f.content, pos + i + 1) && (n > 0 ==> remaining > 0)
      {
        assert buf[i] == buf[..size][i] == f.content[pos + i];
        if buf[i] == '\n' && pos + i != end - 1 {
          remaining := remaining - 1;
          if remaining == 0 {
            f.offset := pos + i + 1;
            FewerLater(f.content, 0, pos + i);
            return;
          }
        }
        i := i - 1;
      }
    }
    f.offset := 0;
  }

  lemma {:induction false} FewerLater(s: seq<char>, j: nat, k: nat)
    requires j <= k
    ensures NewlinesFrom(s, j) >= NewlinesFrom(s, k)
    decreases k - j
  {
    if j < k {
      FewerLater(s, j + 1, k);
    }
  }

  function FirstNewline(s: seq<char>): (i: nat)
    ensures i <= |s| && (i < |s| ==> s[i] == '\n') && forall j | 0 <= j < i :: s[j] != '\n'
  {
    if s == [] || s[0] == '\n' then 0 else 1 + FirstNewline(s[1..])
  }

  /** The lines of a text, each with its newline. */
  function Lines(s: seq<char>): seq<seq<char>>
    decreases |s|
  {
    var i := FirstNewline(s);
    if s == [] then [] else if i == |s| then [s] else [s[..i + 1]] + Lines(s[i + 1..])
  }

  lemma FirstNewlineIs(s: seq<char>, i: nat)
    requires i <= |s| && (i < |s| ==> s[i] == '\n') && forall j | 0 <= j < i :: s[j] != '\n'
    ensures FirstNewline(s) == i
  {
  }

  lemma LinesStep(s: seq<char>, i: nat)
    requires i < |s| && s[i] == '\n' && forall j | 0 <= j < i :: s[j] != '\n'
    ensures Lines(s) == [s[..i + 1]] + Lines(s[i + 1..])
  {
    FirstNewlineIs(s, i);
  }

  lemma Slices<T>(s: seq<T>, i: nat, p: nat)
    requires i <= p <= |s|
    ensures s[i..][..p - i] == s[..p][i..] && s[i..][p - i..] == s[p..] && s[..p][..i] == s[..i]
  {
  }

  lemma Regroup<T>(x: T, a: seq<T>, b: seq<T>)
    ensures [x] + (a + b) == ([x] + a) + b
  {
  }

  /** Cutting after a newline cuts the lines. */
  lemma {:induction false} LinesCut(s: seq<char>, p: nat)
    requires p <= |s| && (p == 0 || s[p - 1] == '\n')
    ensures Lines(s) == Lines(s[..p]) + Lines(s[p..])
    decreases p
  {
    if p == 0 {
      assert Lines(s[..p]) == [] && s[p..] == s;
    } else {
      hide Lines;
      var i := FirstNewline(s);
      LinesStep(s, i);
      LinesStep(s[..p], i);
      var rest, q := s[i + 1..], p - i - 1;
      assert q > 0 ==> rest[q - 1] == s[p - 1];
      LinesCut(rest, q);
      Slices(s, i + 1, p);
      Regroup(s[..i + 1], Lines(rest[..q]), Lines(rest[q..]));
    }
  }

  lemma {:induction false} NewlinesShift(s: seq<char>, p: nat, k: nat)
    requires p + k <= |s|
    ensures NewlinesFrom(s[p..], k) == NewlinesFrom(s, p + k)
    decreases |s| - p - k
  {
    if p + k + 1 < |s| {
      NewlinesShift(s, p, k + 1);
    }
  }

  lemma {:induction false} NewlinesSkip(s: seq<char>, j: nat, k: nat)
    requires j <= k <= |s| && forall x | j <= x < k :: s[x] != '\n'
    ensures NewlinesFrom(s, j) == NewlinesFrom(s, k)
    decreases k - j
  {
    if j < k {
      NewlinesSkip(s, j + 1, k);
    }
  }

  /** A text has one line more than it has newlines before its last byte. */
  lemma {:induction false} LineCount(s: seq<char>)
    ensures |Lines(s)| == if s == [] then 0 else NewlinesFrom(s, 0) + 1
    decreases |s|
  {
    if s != [] {
      var i := FirstNewline(s);
      NewlinesSkip(s, 0, i);
      if i < |s| {
        LineCount(s[i + 1..]);
        NewlinesShift(s, i + 1, 0);
      }
    }
  }

  /** What is read from the offset on is exactly the last n lines, or all of them when there are
      not that many. */
  lemma TailIsLastLines(s: seq<char>, n: nat, offset: nat)
    requires n > 0
    requires NewlinesFrom(s, 0) < n ==> offset == 0
    requires n <= NewlinesFrom(s, 0) ==> AfterNth(s, n, offset)
    ensures offset <= |s|
    ensures var all, count := Lines(s), |Lines(s)|;
            Lines(s[offset..]) == if count <= n then all else all[count - n..]
  {
    LineCount(s);
    LinesCut(s, offset);
    LineCount(s[offset..]);
    NewlinesShift(s, offset, 0);
    assert s[0..] == s;
  }
}
