/** Reading and splitting pipe lines in the notify plugin
    (tscore/notify/source/pipe.c:48-211). ReadLine reads up to the next
    newline, strips it with an optional carriage return, and tokenizes the
    line in place: the first blank after each argument is overwritten with
    NUL, so that ExtractArgument can later step from argument to argument.
    The file is a character sequence and the file pointer an index into it;
    the in-place buffer is a sequence that ends in its terminating NUL. */
module PipeLine {
  import opened Wrappers

  /** The characters the tokenizer treats as separators besides NUL. */
  predicate IsBlank(c: char)
  {
    c == ' ' || c == '\t' || c == '\r'
  }

  predicate NoNul(s: seq<char>)
  {
    forall i :: 0 <= i < |s| ==> s[i] != '\0'
  }

  // ---------------------------------------------------------------------
  // Reference: the arguments of a line are its maximal runs of non-blank
  // characters.

  /** The length of the run of non-blank characters at the front of `s`. */
  function RunLength(s: seq<char>): (n: nat)
    ensures n <= |s|
    ensures forall i :: 0 <= i < n ==> !IsBlank(s[i])
    ensures n == |s| || IsBlank(s[n])
  {
    if |s| == 0 || IsBlank(s[0]) then 0 else 1 + RunLength(s[1..])
  }

  function Tokens(s: seq<char>): (ts: seq<seq<char>>)
    ensures forall k :: 0 <= k < |ts| ==> |ts[k]| > 0
    decreases |s|
  {
    if |s| == 0 then []
    else if IsBlank(s[0]) then Tokens(s[1..])
    else
      var n := RunLength(s);
      [s[..n]] + Tokens(s[n..])
  }

  /** The line as the tokenizer leaves it: a blank right after a non-blank
      character becomes NUL, everything else is kept. */
  function Mark(s: seq<char>): (m: seq<char>)
    ensures |m| == |s|
  {
    seq(|s|, j requires 0 <= j < |s| =>
      if IsBlank(s[j]) && j > 0 && !IsBlank(s[j - 1]) then '\0' else s[j])
  }

  // ---------------------------------------------------------------------
  // The tokenizer loop (pipe.c:95-140)

  /** The first index at or after `j` that does not hold a blank. */
  function SkipBlanks(buf: seq<char>, j: nat): (k: nat)
    requires j <= |buf|
    ensures j <= k <= |buf|
    ensures forall m :: j <= m < k ==> IsBlank(buf[m])
    ensures k == |buf| || !IsBlank(buf[k])
    ensures j < |buf| && !IsBlank(buf[|buf| - 1]) ==> k < |buf|
    decreases |buf| - j
  {
    if j == |buf| || !IsBlank(buf[j]) then j else SkipBlanks(buf, j + 1)
  }

  /** The do-while scan of pipe.c:97-140 from index `i`, with `run`
      non-blank characters seen since the last separator and `count`
      arguments found. Returns the rewritten buffer and the final count. */
  function Scan(buf: seq<char>, i: nat, run: nat, count: nat): (r: (seq<char>, nat))
    requires i < |buf| && buf[|buf| - 1] == '\0'
    ensures |r.0| == |buf| && r.0[|buf| - 1] == '\0'
    decreases |buf| - i
  {
    var c := buf[i];
    if c == '\0' || IsBlank(c) then
      if run != 0 then
        var buf1 := buf[i := '\0'];
        if c == '\0' then (buf1, count + 1)
        else
          var j := SkipBlanks(buf1, i + 1);
          if buf1[j] == '\0' then (buf1, count + 1)
          else Scan(buf1, j, 0, count + 1)
      else if c == '\0' then (buf, count)
      else Scan(buf, i + 1, 0, count)
    else Scan(buf, i + 1, run + 1, count)
  }

  /** Tokenizing a NUL-free line: its in-place buffer and argument count. */
  function Tokenize(s: seq<char>): (r: (seq<char>, nat))
    requires NoNul(s)
    ensures r.0 == Mark(s) + ['\0']
    ensures r.1 == |Tokens(s)|
  {
    assert ScanReady(s, s + ['\0'], 0, 0);
    ScanCorrect(s, s + ['\0'], 0, 0, 0);
    Scan(s + ['\0'], 0, 0, 0)
  }

  lemma {:induction false} TokensSkipBlank(s: seq<char>, j: nat)
    requires j <= |s| && forall m :: 0 <= m < j ==> IsBlank(s[m])
    ensures Tokens(s) == Tokens(s[j..])
    decreases j
  {
    if j > 0 {
      assert s[1..][j - 1..] == s[j..];
      TokensSkipBlank(s[1..], j - 1);
    }
  }

  lemma {:induction false} RunLengthExact(s: seq<char>, n: nat)
    requires n <= |s|
    requires forall i :: 0 <= i < n ==> !IsBlank(s[i])
    requires n == |s| || IsBlank(s[n])
    ensures RunLength(s) == n
    decreases n
  {
    if n > 0 {
      RunLengthExact(s[1..], n - 1);
    }
  }

  /** What Scan does from index `i` of the buffer of line `s`, when the
      characters before `i` are already rewritten and `run` counts the
      non-blank characters just before `i`. */
  predicate ScanReady(s: seq<char>, buf: seq<char>, i: nat, run: nat)
  {
    NoNul(s) && |buf| == |s| + 1 && i <= |s| && run <= i &&
    buf[i..] == s[i..] + ['\0'] &&
    (forall m :: i - run <= m < i ==> !IsBlank(s[m])) &&
    (run == 0 ==> i == 0 || IsBlank(s[i - 1]))
  }

  lemma ScanCorrect(s: seq<char>, buf: seq<char>, i: nat, run: nat, count: nat)
    requires ScanReady(s, buf, i, run)
    ensures Scan(buf, i, run, count).1 == count + |Tokens(s[i - run..])|
    ensures Scan(buf, i, run, count).0 == buf[..i] + Mark(s)[i..] + ['\0']
    decreases |buf| - i, 2
  {
    assert buf[i] == (s[i..] + ['\0'])[0];
    var c := buf[i];
    if c == '\0' || IsBlank(c) {
      if run != 0 {
        ScanSeparator(s, buf, i, run, count);
      } else if c == '\0' {
        assert i == |s|;
        assert buf == buf[..i] + Mark(s)[i..] + ['\0'];
      } else {
        ScanBlank(s, buf, i, count);
      }
    } else {
      ScanNonBlank(s, buf, i, run, count);
    }
  }

  /** Extending the rewritten prefix by one unchanged character. */
  lemma PrefixStep(buf: seq<char>, m: seq<char>, i: nat)
    requires i < |buf| && i < |m| && buf[i] == m[i]
    ensures buf[..i + 1] + m[i + 1..] + ['\0'] == buf[..i] + m[i..] + ['\0']
  {
    assert buf[..i + 1] == buf[..i] + [m[i]];
    assert m[i..] == [m[i]] + m[i + 1..];
  }

  lemma ScanNonBlank(s: seq<char>, buf: seq<char>, i: nat, run: nat, count: nat)
    requires ScanReady(s, buf, i, run) && buf[i] != '\0' && !IsBlank(buf[i])
    ensures Scan(buf, i, run, count).1 == count + |Tokens(s[i - run..])|
    ensures Scan(buf, i, run, count).0 == buf[..i] + Mark(s)[i..] + ['\0']
    decreases |buf| - i, 1
  {
    assert buf[i] == (s[i..] + ['\0'])[0];
    assert i < |s|;
    assert buf[i + 1..] == s[i + 1..] + ['\0'] by {
      assert buf[i + 1..] == (s[i..] + ['\0'])[1..];
    }
    ScanCorrect(s, buf, i + 1, run + 1, count);
    PrefixStep(buf, Mark(s), i);
  }

  lemma ScanBlank(s: seq<char>, buf: seq<char>, i: nat, count: nat)
    requires ScanReady(s, buf, i, 0) && IsBlank(buf[i])
    ensures Scan(buf, i, 0, count).1 == count + |Tokens(s[i..])|
    ensures Scan(buf, i, 0, count).0 == buf[..i] + Mark(s)[i..] + ['\0']
    decreases |buf| - i, 1
  {
    assert buf[i] == (s[i..] + ['\0'])[0];
    assert i < |s|;
    assert buf[i + 1..] == s[i + 1..] + ['\0'] by {
      assert buf[i + 1..] == (s[i..] + ['\0'])[1..];
    }
    assert Tokens(s[i..]) == Tokens(s[i + 1..]) by {
      assert s[i..][1..] == s[i + 1..];
    }
    ScanCorrect(s, buf, i + 1, 0, count);
    PrefixStep(buf, Mark(s), i);
  }

  lemma ScanSeparator(s: seq<char>, buf: seq<char>, i: nat, run: nat, count: nat)
    requires ScanReady(s, buf, i, run) && run != 0 && (buf[i] == '\0' || IsBlank(buf[i]))
    ensures Scan(buf, i, run, count).1 == count + |Tokens(s[i - run..])|
    ensures Scan(buf, i, run, count).0 == buf[..i] + Mark(s)[i..] + ['\0']
    decreases |buf| - i, 1
  {
    assert buf[i] == (s[i..] + ['\0'])[0];
    SeparatorTokens(s, i, run);
    if buf[i] == '\0' {
      assert i == |s|;
      assert s[i..] == [];
      assert buf[i := '\0'] == buf[..i] + Mark(s)[i..] + ['\0'];
    } else {
      ScanAfterArgument(s, buf, i, run, count);
    }
  }

  lemma JoinAt<T>(p: seq<T>, m: seq<T>, i: nat, j: nat)
    requires i <= j <= |m|
    ensures (p + m[i..j]) + m[j..] == p + m[i..]
  {
    assert m[i..] == m[i..j] + m[j..];
  }

  lemma ScanAfterArgument(s: seq<char>, buf: seq<char>, i: nat, run: nat, count: nat)
    requires ScanReady(s, buf, i, run) && run != 0 && i < |s| && IsBlank(buf[i])
    ensures Scan(buf, i, run, count).1 == count + 1 + |Tokens(s[i..])|
    ensures Scan(buf, i, run, count).0 == buf[..i] + Mark(s)[i..] + ['\0']
    decreases |buf| - i, 0
  {
    assert buf[i] == (s[i..] + ['\0'])[0];
    var m := Mark(s);
    var buf1 := buf[i := '\0'];
    var j := SeparatorSkip(s, buf, i);
    if j < |s| {
      assert Scan(buf, i, run, count) == Scan(buf1, j, 0, count + 1);
      ScanCorrect(s, buf1, j, 0, count + 1);
      JoinAt(buf[..i], m, i, j);
    } else {
      assert Scan(buf, i, run, count) == (buf1, count + 1);
      assert s[j..] == [];
      assert buf1 == buf1[..j] + [buf1[j]];
    }
  }

  /** An argument of `run` characters ends at index `i`. */
  lemma SeparatorTokens(s: seq<char>, i: nat, run: nat)
    requires 0 < run <= i <= |s| && (i == |s| || IsBlank(s[i]))
    requires forall m :: i - run <= m < i ==> !IsBlank(s[m])
    ensures |Tokens(s[i - run..])| == 1 + |Tokens(s[i..])|
  {
    var t := s[i - run..];
    RunLengthExact(t, run);
    assert t[run..] == s[i..];
  }

  /** The blanks after an argument: the first is overwritten and the rest
      are stepped over, up to the next argument or the end. */
  lemma SeparatorSkip(s: seq<char>, buf: seq<char>, i: nat) returns (j: nat)
    requires NoNul(s) && |buf| == |s| + 1 && i < |s| && buf[i..] == s[i..] + ['\0'] && IsBlank(s[i])
    requires i > 0 && !IsBlank(s[i - 1])
    ensures j == SkipBlanks(buf[i := '\0'], i + 1) && i < j <= |s|
    ensures Tokens(s[i..]) == Tokens(s[j..])
    ensures buf[i := '\0'][..j] == buf[..i] + Mark(s)[i..j]
    ensures j < |s| ==> buf[i := '\0'][j] != '\0' && buf[i := '\0'][j..] == s[j..] + ['\0'] && IsBlank(s[j - 1])
    ensures j == |s| ==> buf[i := '\0'][j] == '\0'
  {
    j := BlankRun(s, buf, i);
    BlanksSkipped(s, i, j);
    SeparatorBuffer(s, buf, i, j);
    if j < |s| {
      assert buf[i := '\0'][j] == (s + ['\0'])[j] == s[j];
    }
  }

  /** Stepping over blanks does not change the arguments that follow. */
  lemma BlanksSkipped(s: seq<char>, i: nat, j: nat)
    requires i <= j <= |s| && forall q :: i <= q < j ==> IsBlank(s[q])
    ensures Tokens(s[i..]) == Tokens(s[j..])
  {
    TokensSkipBlank(s[i..], j - i);
    assert s[i..][j - i..] == s[j..];
  }

  /** Where the skip after an argument stops, and that it crosses only
      blanks. */
  lemma BlankRun(s: seq<char>, buf: seq<char>, i: nat) returns (j: nat)
    requires NoNul(s) && |buf| == |s| + 1 && i < |s| && buf[i..] == s[i..] + ['\0'] && IsBlank(s[i])
    ensures j == SkipBlanks(buf[i := '\0'], i + 1) && i < j <= |s|
    ensures forall q :: i <= q < j ==> IsBlank(s[q])
    ensures forall q :: i < q <= j ==> buf[i := '\0'][q] == buf[q] == (s + ['\0'])[q]
    ensures j < |s| ==> !IsBlank(s[j])
  {
    var buf1 := buf[i := '\0'];
    j := SkipBlanks(buf1, i + 1);
    forall q | i < q < |buf| ensures buf1[q] == buf[q] == (s + ['\0'])[q] {
      assert buf[q] == (s[i..] + ['\0'])[q - i];
    }
    forall q | i < q < j ensures IsBlank(s[q]) {
      assert (s + ['\0'])[q] == s[q];
    }
  }

  /** The buffer after the skip: rewritten up to `j`, untouched after. */
  lemma SeparatorBuffer(s: seq<char>, buf: seq<char>, i: nat, j: nat)
    requires NoNul(s) && |buf| == |s| + 1 && i < j <= |s| && buf[i..] == s[i..] + ['\0']
    requires forall q :: i <= q < j ==> IsBlank(s[q])
    requires i > 0 && !IsBlank(s[i - 1])
    requires forall q :: i < q <= j ==> buf[q] == (s + ['\0'])[q]
    ensures buf[i := '\0'][..j] == buf[..i] + Mark(s)[i..j]
    ensures j < |s| ==> buf[i := '\0'][j..] == s[j..] + ['\0']
  {
    SeparatorPrefix(s, buf, i, j);
    if j < |s| {
      var buf1 := buf[i := '\0'];
      assert buf1[j..] == buf[j..];
      assert buf[j..] == (s[i..] + ['\0'])[j - i..];
    }
  }

  /** The rewritten part of the buffer: the first blank becomes a NUL, the
      other blanks stay, as the marking says. */
  lemma SeparatorPrefix(s: seq<char>, buf: seq<char>, i: nat, j: nat)
    requires NoNul(s) && |buf| == |s| + 1 && i < j <= |s|
    requires forall q :: i <= q < j ==> IsBlank(s[q])
    requires i > 0 && !IsBlank(s[i - 1])
    requires forall q :: i < q <= j ==> buf[q] == (s + ['\0'])[q]
    ensures buf[i := '\0'][..j] == buf[..i] + Mark(s)[i..j]
  {
    var buf1 := buf[i := '\0'];
    var m := Mark(s);
    forall q | i <= q < j ensures buf1[q] == m[q] {
      if q > i {
        assert IsBlank(s[q - 1]);
        assert (s + ['\0'])[q] == s[q];
      }
    }
    forall q | 0 <= q < j ensures buf1[..j][q] == (buf[..i] + m[i..j])[q] {
      if q < i {
        assert buf1[..j][q] == buf[q] == buf[..i][q];
      } else {
        assert (buf[..i] + m[i..j])[q] == m[i..j][q - i] == m[q];
      }
    }
  }

  // ---------------------------------------------------------------------
  // ExtractArgument (pipe.c:163-211). A char pointer is the suffix of the
  // buffer it points into.

  /** The C string at the front of `t`: everything before the first NUL. */
  function CStr(t: seq<char>): (r: seq<char>)
    ensures |r| <= |t| && r == t[..|r|] && NoNul(r)
    ensures |r| < |t| ==> t[|r|] == '\0'
  {
    if |t| == 0 || t[0] == '\0' then [] else [t[0]] + CStr(t[1..])
  }

  /** `while(argument--) line += strlen(line)+1;` */
  function SkipStrings(t: seq<char>, k: nat): seq<char>
  {
    if k == 0 then t
    else if |CStr(t)| < |t| then SkipStrings(t[|CStr(t)| + 1..], k - 1)
    else []
  }

  /** The second loop: step over ' ', '\t' and '\r'. */
  function DropBlanks(t: seq<char>): seq<char>
  {
    t[SkipBlanks(t, 0)..]
  }

  /** A line held by a pipe: the in-place buffer and its argument count. */
  datatype Held = Held(buf: seq<char>, count: nat)

  /** ExtractArgument: "" for no line, a negative index or an index past the
      last argument, otherwise the indexed argument. The copy into
      interpreter memory is left to the caller. */
  function ExtractArgument(line: Option<Held>, argument: int): (r: seq<char>)
    ensures line.None? || argument < 0 || argument >= line.value.count ==> r == []
  {
    if line.None? || argument < 0 || argument >= line.value.count then []
    else CStr(DropBlanks(SkipStrings(line.value.buf, argument)))
  }

  lemma {:induction false} CStrOfToken(t: seq<char>, n: nat)
    requires n < |t| && NoNul(t[..n]) && t[n] == '\0'
    ensures CStr(t) == t[..n]
    decreases n
  {
    if n > 0 {
      assert t[1..][..n - 1] == t[1..n];
      CStrOfToken(t[1..], n - 1);
    }
  }

  lemma {:induction false} SkipBlanksStops(t: seq<char>, j: nat, a: nat)
    requires j <= a < |t| && forall q :: j <= q < a ==> IsBlank(t[q])
    requires !IsBlank(t[a])
    ensures SkipBlanks(t, j) == a
    decreases a - j
  {
    if j < a {
      SkipBlanksStops(t, j + 1, a);
    }
  }

  /** The first non-blank index of a line with at least one argument. */
  lemma FirstNonBlank(s: seq<char>) returns (a: nat)
    requires |Tokens(s)| > 0
    ensures a < |s| && !IsBlank(s[a])
    ensures forall q :: 0 <= q < a ==> IsBlank(s[q])
    ensures Tokens(s) == Tokens(s[a..])
    decreases |s|
  {
    if IsBlank(s[0]) {
      var b := FirstNonBlank(s[1..]);
      a := b + 1;
      assert s[1..][b..] == s[a..];
    } else {
      a := 0;
    }
  }

  lemma MarkSuffix(s: seq<char>, p: nat)
    requires 0 < p <= |s| && IsBlank(s[p - 1])
    ensures Mark(s)[p..] == Mark(s[p..])
  {
  }

  /** The shape of a tokenized line with at least one argument: blanks up
      to `a`, the first argument from `a` to `e`, then a NUL. */
  lemma FirstTokenLayout(s: seq<char>) returns (a: nat, e: nat)
    requires NoNul(s) && |Tokens(s)| > 0
    ensures a < e <= |s|
    ensures forall q :: 0 <= q < a ==> (Mark(s) + ['\0'])[q] == s[q] && IsBlank(s[q])
    ensures forall q :: a <= q < e ==> (Mark(s) + ['\0'])[q] == s[q] && !IsBlank(s[q])
    ensures (Mark(s) + ['\0'])[e] == '\0'
    ensures Tokens(s) == [s[a..e]] + Tokens(s[e..])
  {
    var buf := Mark(s) + ['\0'];
    a := FirstNonBlank(s);
    var u := s[a..];
    var n := RunLength(u);
    assert Tokens(u) == [u[..n]] + Tokens(u[n..]);
    e := a + n;
    assert u[n..] == s[e..];
    assert u[..n] == s[a..e];
    forall q | 0 <= q < a ensures buf[q] == s[q] {
      assert q > 0 ==> IsBlank(s[q - 1]);
    }
    forall q | a <= q < e ensures buf[q] == s[q] && !IsBlank(s[q]) {
      assert u[q - a] == s[q];
    }
  }

  lemma NoNulSlice(s: seq<char>, a: nat, e: nat)
    requires NoNul(s) && a <= e <= |s|
    ensures NoNul(s[a..e])
  {
    forall q | 0 <= q < e - a ensures s[a..e][q] != '\0' {
      assert s[a..e][q] == s[a + q];
    }
  }

  /** Argument 0: the leading blanks are skipped and the argument runs up
      to the NUL the tokenizer wrote after it. */
  lemma ExtractFirstToken(s: seq<char>)
    requires NoNul(s) && 0 < |Tokens(s)|
    ensures CStr(DropBlanks(Mark(s) + ['\0'])) == Tokens(s)[0]
  {
    var buf := Mark(s) + ['\0'];
    var a, e := FirstTokenLayout(s);
    SkipBlanksStops(buf, 0, a);
    var t := buf[a..];
    assert t[..e - a] == s[a..e];
    NoNulSlice(s, a, e);
    CStrOfToken(t, e - a);
  }

  /** Argument k + 1: the first argument and its NUL are stepped over, and
      what follows is the tokenized rest of the line. */
  lemma SkipFirstToken(s: seq<char>, k: nat) returns (s2: seq<char>)
    requires NoNul(s) && k + 1 < |Tokens(s)|
    ensures NoNul(s2) && |s2| < |s| && k < |Tokens(s2)| && Tokens(s2)[k] == Tokens(s)[k + 1]
    ensures SkipStrings(Mark(s) + ['\0'], k + 1) == SkipStrings(Mark(s2) + ['\0'], k)
  {
    var buf := Mark(s) + ['\0'];
    var e := FirstStringEnd(s);
    s2 := s[e + 1..];
    NoNulSlice(s, e + 1, |s|);
    assert buf[e + 1..] == Mark(s2) + ['\0'] by {
      MarkSuffix(s, e + 1);
    }
    assert Tokens(s[e..]) == Tokens(s2) by {
      assert s[e..][1..] == s2;
    }
  }

  /** The first C string of a tokenized line with two or more arguments
      ends at a NUL the tokenizer wrote over a blank. */
  lemma FirstStringEnd(s: seq<char>) returns (e: nat)
    requires NoNul(s) && 1 < |Tokens(s)|
    ensures e < |s| && IsBlank(s[e])
    ensures |CStr(Mark(s) + ['\0'])| == e
    ensures Tokens(s) == [Tokens(s)[0]] + Tokens(s[e..])
  {
    var buf := Mark(s) + ['\0'];
    var a;
    a, e := FirstTokenLayout(s);
    assert buf[..e] == s[..e];
    NoNulSlice(s, 0, e);
    CStrOfToken(buf, e);
  }

  /** Stepping over `k` strings and then the blanks of the tokenized buffer
      lands on the k-th argument. */
  lemma {:induction false} ExtractFindsToken(s: seq<char>, k: nat)
    requires NoNul(s) && k < |Tokens(s)|
    ensures CStr(DropBlanks(SkipStrings(Mark(s) + ['\0'], k))) == Tokens(s)[k]
    decreases |s|
  {
    if k == 0 {
      ExtractFirstToken(s);
    } else {
      var s2 := SkipFirstToken(s, k - 1);
      ExtractFindsToken(s2, k - 1);
    }
  }

  /** ExtractArgument on a line as ReadLine leaves it returns exactly the
      argument asked for. */
  lemma ExtractArgumentCorrect(s: seq<char>, argument: int)
    requires NoNul(s) && 0 <= argument < |Tokens(s)|
    ensures ExtractArgument(Some(Held(Tokenize(s).0, Tokenize(s).1)), argument) == Tokens(s)[argument]
  {
    ExtractFindsToken(s, argument);
  }

  // ---------------------------------------------------------------------
  // ReadLine (pipe.c:48-161)

  /** What ReadLine produced: a line with at least one argument (the text as
      read, the tokenized buffer, the count and the file position after it),
      no complete line (the position it rewound to), or an undefined read. */
  datatype LineRead =
    | Got(text: seq<char>, held: Held, next: nat)
    | NoLine(next: nat)
    | Undefined

  /** The distance from `p` to just past the next newline, if any. */
  function NewlineEnd(f: seq<char>, p: nat): (r: Option<nat>)
    requires p <= |f|
    ensures r.Some? ==> p < r.value <= |f| && f[r.value - 1] == '\n'
    ensures r.Some? ==> forall q :: p <= q < r.value - 1 ==> f[q] != '\n'
    ensures r.None? ==> forall q :: p <= q < |f| ==> f[q] != '\n'
    decreases |f| - p
  {
    if p == |f| then None
    else if f[p] == '\n' then Some(p + 1)
    else NewlineEnd(f, p + 1)
  }

  /** One pass of the outer loop: the bytes of the line are re-read from
      `start` (the position the count `bytes_read` reaches back to), while
      the single-character scan resumes at `p`. A line without arguments is
      dropped, but `bytes_read` keeps its value less two, so the next pass
      reaches back to `start + 2`. */
  function ReadFrom(f: seq<char>, start: nat, p: nat): (r: LineRead)
    requires start <= p <= |f|
    ensures r.Got? ==> p < r.next <= |f| && r.held.count >= 1
    ensures r.Got? ==> NoNul(r.text) && r.held == Held(Mark(r.text) + ['\0'], |Tokens(r.text)|)
    ensures r.NoLine? ==> start <= r.next <= |f|
    decreases |f| - p
  {
    var e := NewlineEnd(f, p);
    if e.None? then NoLine(start)
    else
      var n := e.value - start;
      if n < 2 then Undefined
      else
        var raw := f[start..e.value - 1];
        var stripped := if raw[n - 2] == '\r' then raw[..n - 2] else raw;
        var text := CStr(stripped);
        var t := Tokenize(text);
        if t.1 == 0 then ReadFrom(f, start + 2, e.value)
        else Got(text, Held(t.0, t.1), e.value)
  }

  /** ReadLine from file position `pos`. */
  function ReadLine(f: seq<char>, pos: nat): (r: LineRead)
    requires pos <= |f|
    ensures r.Got? ==> pos < r.next <= |f| && r.held.count == |Tokens(r.text)| >= 1
    ensures r.NoLine? ==> r.next >= pos
  {
    ReadFrom(f, pos, pos)
  }

  /** A line of arguments read from a fresh position is returned whole, less
      its newline and an optional carriage return, and the file position
      moves past it. */
  lemma ReadsFreshLine(f: seq<char>, pos: nat, e: nat)
    requires pos + 2 <= e <= |f| && f[e - 1] == '\n'
    requires forall q :: pos <= q < e - 1 ==> f[q] != '\n' && f[q] != '\0'
    requires var line := f[pos..e - 1];
             var body := if line[|line| - 1] == '\r' then line[..|line| - 1] else line;
             |Tokens(body)| > 0
    ensures var line := f[pos..e - 1];
            var body := if line[|line| - 1] == '\r' then line[..|line| - 1] else line;
            ReadLine(f, pos) == Got(body, Held(Mark(body) + ['\0'], |Tokens(body)|), e)
  {
    var line := f[pos..e - 1];
    var body := if line[|line| - 1] == '\r' then line[..|line| - 1] else line;
    assert NewlineEnd(f, pos) == Some(e) by {
      NewlineEndAt(f, pos, e);
    }
    assert NoNul(body) by {
      forall i | 0 <= i < |body|
        ensures body[i] != '\0'
      {
        assert body[i] == f[pos + i];
      }
    }
    CStrOfAll(body);
  }

  lemma {:induction false} NewlineEndAt(f: seq<char>, p: nat, e: nat)
    requires p < e <= |f| && f[e - 1] == '\n'
    requires forall q :: p <= q < e - 1 ==> f[q] != '\n'
    ensures NewlineEnd(f, p) == Some(e)
    decreases e - p
  {
    if f[p] != '\n' {
      NewlineEndAt(f, p + 1, e);
    }
  }

  lemma CStrOfAll(t: seq<char>)
    requires NoNul(t)
    ensures CStr(t) == t
  {
    if |t| > 0 {
      CStrOfAll(t[1..]);
    }
  }

  /** Kept as written: a blank line read from a fresh position makes the
      C code read line[-1]. */
  lemma BlankLineUndefined(f: seq<char>, pos: nat)
    requires pos < |f| && f[pos] == '\n'
    ensures ReadLine(f, pos) == Undefined
  {
  }

  /** Kept as written: after a skipped line of two blanks, the next line is
      re-read from two characters past the start of the skipped one, so the
      skipped line's newline becomes part of the argument. */
  lemma StaleCarry()
    ensures ReadLine("  \nab\n", 0).Got?
    ensures ReadLine("  \nab\n", 0).text == "\nab"
    ensures Tokens(ReadLine("  \nab\n", 0).text) == ["\nab"]
  {
    var f := "  \nab\n";
    SkippedBlankLine(f);
    ReadCarried(f);
  }

  lemma SkippedBlankLine(f: seq<char>)
    requires f == "  \nab\n"
    ensures ReadFrom(f, 0, 0) == ReadFrom(f, 2, 3)
  {
    NewlineEndAt(f, 0, 3);
    assert f[0..2] == "  ";
    CStrOfAll("  ");
    TokensSkipBlank("  ", 2);
    assert "  "[2..] == [];
  }

  lemma ReadCarried(f: seq<char>)
    requires f == "  \nab\n"
    ensures ReadFrom(f, 2, 3).Got? && ReadFrom(f, 2, 3).text == "\nab"
    ensures Tokens("\nab") == ["\nab"]
  {
    NewlineEndAt(f, 3, 6);
    assert f[2..5] == "\nab";
    CStrOfAll("\nab");
    RunLengthExact("\nab", 3);
    assert "\nab"[..3] == "\nab" && "\nab"[3..] == [];
  }
}
