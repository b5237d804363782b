/** Cleaning a source buffer in place: trigraphs, spliced lines, carriage returns
    and comments. The buffer is read and overwritten at once; here that is shown
    to do what cleaning into a new buffer would do. */
module CleanBuffer {
  const NL := '\n'
  const CR := '\r'
  const NUL := '\0'

  /** The character k places on; the buffer ends in a NUL. */
  function At(s: seq<char>, k: nat): char {
    if k < |s| then s[k] else NUL
  }

  function Trigraph(c: char): char {
    if c == '=' then '#'
    else if c == '(' then '['
    else if c == '/' then '\\'
    else if c == ')' then ']'
    else if c == '\'' then '^'
    else if c == '<' then '{'
    else if c == '!' then '|'
    else if c == '>' then '}'
    else if c == '-' then '~'
    else NUL
  }

  /** A spliced newline at place k: a backslash or its trigraph, with an optional
      carriage return. Its length, or 0. */
  function Splice(s: seq<char>, k: nat): nat {
    if At(s, k) == '\\' then
      if At(s, k + 1) == NL then 2 else if At(s, k + 1) == CR && At(s, k + 2) == NL then 3 else 0
    else if At(s, k) == '?' && At(s, k + 1) == '?' && At(s, k + 2) == '/' then
      if At(s, k + 3) == NL then 4 else if At(s, k + 3) == CR && At(s, k + 4) == NL then 5 else 0
    else 0
  }

  /** Does the character after s[0] read c, directly or past one splice? */
  predicate Pairs(s: seq<char>, c: char) {
    At(s, 1) == c || (Splice(s, 1) > 0 && At(s, 1 + Splice(s, 1)) == c)
  }

  /** As Pairs, but a backslash, carriage return and newline are not looked
      through: the test for them can never hold. */
  predicate Closes(s: seq<char>) {
    At(s, 0) == '*' && (At(s, 1) == '/' || (Splice(s, 1) > 0 && Splice(s, 1) != 3 && At(s, 1 + Splice(s, 1)) == '/'))
  }

  /** How far such a pair reaches; one more if a carriage return follows the
      splice `\` newline `c`. */
  function PairLength(s: seq<char>, c: char): nat {
    if At(s, 1) == c then 2
    else if At(s, 2) == CR || At(s, 4) == CR then if At(s, 1) == '?' then 7 else 5
    else if At(s, 1) == '?' then 6
    else 4
  }

  function Newlines(s: seq<char>): nat {
    if |s| == 0 then 0 else Newlines(s[..|s| - 1]) + if s[|s| - 1] == NL then 1 else 0
  }

  /** The first place where a comment closes, or the end. */
  function CommentEnd(s: seq<char>): (k: nat)
    ensures k <= |s|
  {
    if |s| == 0 || Closes(s) then 0 else 1 + CommentEnd(s[1..])
  }

  /** The first newline that is not spliced away, or the end. */
  function LineEnd(s: seq<char>): (k: nat)
    ensures k <= |s|
  {
    if |s| == 0 || s[0] == NL then 0
    else if Splice(s, 0) > 0 then Splice(s, 0) + LineEnd(s[Splice(s, 0)..])
    else 1 + LineEnd(s[1..])
  }

  lemma SpliceFits(s: seq<char>, k: nat)
    ensures k + Splice(s, k) <= |s| || Splice(s, k) == 0
  {
  }

  lemma PairFits(s: seq<char>, c: char)
    requires |s| > 0 && Pairs(s, c) && c != NUL
    ensures 2 <= PairLength(s, c) <= |s|
  {
  }

  // ----- cleaning into a new buffer -----

  /** The output, and the spliced newlines not yet made good. */
  datatype Cleaned = Cleaned(out: seq<char>, bsnl: nat)

  function Emit(out: seq<char>, r: Cleaned): Cleaned {
    r.(out := out + r.out)
  }

  function Repeat(c: char, n: nat): (s: seq<char>)
    ensures |s| == n
  {
    if n == 0 then [] else Repeat(c, n - 1) + [c]
  }

  /** What a quote does to the quote the text is in; NUL is none. */
  function Quote(q: char, c: char): char {
    if c != '"' && c != '\'' then q
    else if q == NUL then c
    else if q == c then NUL
    else q
  }

  lemma {:induction false} CommentEndCloses(s: seq<char>)
    ensures CommentEnd(s) < |s| ==> Closes(s[CommentEnd(s)..])
  {
    if |s| > 0 && !Closes(s) {
      CommentEndCloses(s[1..]);
      assert s[1..][CommentEnd(s[1..])..] == s[CommentEnd(s)..];
    } else {
      assert s[0..] == s;
    }
  }

  /** Past a C comment: what it spans, its closing pair included. */
  function CommentSpan(s: seq<char>): (n: nat)
    requires |s| > 0 && Pairs(s, '*')
    ensures 2 <= n <= |s|
  {
    PairFits(s, '*');
    var body := s[PairLength(s, '*')..];
    var k := CommentEnd(body);
    CommentEndCloses(body);
    if k < |body| then
      PairFits(body[k..], '/');
      PairLength(s, '*') + k + PairLength(body[k..], '/')
    else |s|
  }

  /** Up to the newline that ends a comment of the other kind. */
  function LineSpan(s: seq<char>): (n: nat)
    requires |s| > 0 && Pairs(s, '/')
    ensures 2 <= n <= |s|
  {
    PairFits(s, '/');
    PairLength(s, '/') + LineEnd(s[PairLength(s, '/')..])
  }

  /** Clean s, being inside quote q with bsnl spliced newlines owed. */
  function Clean(s: seq<char>, q: char, bsnl: nat): Cleaned
    decreases |s|
  {
    if |s| == 0 then Cleaned([], bsnl)
    else
      var c := s[0];
      if c == '?' && At(s, 1) == '?' && Trigraph(At(s, 2)) != NUL then
        Clean([Trigraph(At(s, 2))] + s[3..], q, bsnl)
      else if c == '\\' && Splice(s, 0) > 0 then
        SpliceFits(s, 0);
        Clean(s[Splice(s, 0)..], q, bsnl + 1)
      else if c == '\\' && |s| > 1 then
        Emit(s[..2], Clean(s[2..], q, bsnl))
      else if c == CR then Clean(s[1..], q, bsnl)
      else if c == NL then Emit(Repeat(NL, bsnl + 1), Clean(s[1..], q, 0))
      else if c == '/' && q == NUL && Pairs(s, '*') then
        Emit([' '], Clean(s[CommentSpan(s)..], q, bsnl + Newlines(s[..CommentSpan(s)])))
      else if c == '/' && q == NUL && Pairs(s, '/') then
        Emit([' '], Clean(s[LineSpan(s)..], q, bsnl + Newlines(s[..LineSpan(s)])))
      else Emit([c], Clean(s[1..], Quote(q, c), bsnl))
  }

  // ----- what cleaning keeps -----

  lemma {:induction false} NewlinesJoin(s: seq<char>, t: seq<char>)
    ensures Newlines(s + t) == Newlines(s) + Newlines(t)
    decreases |t|
  {
    if |t| == 0 {
      assert s + t == s;
    } else {
      assert (s + t)[..|s + t| - 1] == s + t[..|t| - 1];
      NewlinesJoin(s, t[..|t| - 1]);
    }
  }

  lemma NewlinesSplit(s: seq<char>, n: nat)
    requires n <= |s|
    ensures Newlines(s) == Newlines(s[..n]) + Newlines(s[n..])
  {
    assert s == s[..n] + s[n..];
    NewlinesJoin(s[..n], s[n..]);
  }

  lemma {:induction false} NewlinesAtMost(s: seq<char>)
    ensures Newlines(s) <= |s|
  {
    if |s| > 0 {
      NewlinesAtMost(s[..|s| - 1]);
    }
  }

  lemma NewlinesOne(c: char)
    ensures Newlines([c]) == if c == NL then 1 else 0
  {
    assert [c][..0] == [];
  }

  /** A stretch that does not begin with a newline is not all newlines. */
  lemma NewlinesBelow(s: seq<char>, n: nat)
    requires 0 < n <= |s| && s[0] != NL
    ensures Newlines(s[..n]) < n
  {
    NewlinesSplit(s[..n], 1);
    NewlinesAtMost(s[..n][1..]);
    NewlinesOne(s[0]);
    assert s[..n][..1] == [s[0]];
  }

  lemma {:induction false} NewlinesRepeat(n: nat)
    ensures Newlines(Repeat(NL, n)) == n
  {
    if n > 0 {
      NewlinesRepeat(n - 1);
      assert Repeat(NL, n)[..n - 1] == Repeat(NL, n - 1);
    }
  }

  lemma EmitLines(out: seq<char>, r: Cleaned)
    ensures Newlines(Emit(out, r).out) == Newlines(out) + Newlines(r.out)
  {
    NewlinesJoin(out, r.out);
  }

  /** No newline is lost or made up: those written and those still owed are those
      read. */
  lemma {:induction false} LinesKept(s: seq<char>, q: char, bsnl: nat)
    ensures var r := Clean(s, q, bsnl); Newlines(r.out) + r.bsnl == Newlines(s) + bsnl
    decreases |s|
  {
    hide Clean, Newlines, Pairs, Splice;
    if |s| == 0 {
      LinesNone(q, bsnl);
    } else if s[0] == '?' && At(s, 1) == '?' && Trigraph(At(s, 2)) != NUL {
      LinesTrigraph(s, q, bsnl);
    } else if s[0] == '\\' && Splice(s, 0) > 0 {
      LinesSplice(s, q, bsnl);
    } else if s[0] == '\\' && |s| > 1 {
      LinesEscape(s, q, bsnl);
    } else if s[0] == '/' && q == NUL && (Pairs(s, '*') || Pairs(s, '/')) {
      LinesComment(s, bsnl);
    } else {
      LinesOther(s, q, bsnl);
    }
  }

  lemma LinesNone(q: char, bsnl: nat)
    ensures Clean([], q, bsnl) == Cleaned([], bsnl) && Newlines([]) == 0
  {
  }

  lemma {:induction false} LinesOther(s: seq<char>, q: char, bsnl: nat)
    requires |s| > 0 && !(s[0] == '?' && At(s, 1) == '?' && Trigraph(At(s, 2)) != NUL)
    requires !(s[0] == '\\' && (Splice(s, 0) > 0 || |s| > 1))
    requires !(s[0] == '/' && q == NUL && (Pairs(s, '*') || Pairs(s, '/')))
    ensures var r := Clean(s, q, bsnl); Newlines(r.out) + r.bsnl == Newlines(s) + bsnl
    decreases |s|, 0
  {
    hide Newlines, Pairs, Splice;
    var c := s[0];
    NewlinesSplit(s, 1);
    assert s[..1] == [c];
    NewlinesOne(c);
    if c == CR {
      LinesKept(s[1..], q, bsnl);
    } else if c == NL {
      LinesKept(s[1..], q, 0);
      NewlinesRepeat(bsnl + 1);
      EmitLines(Repeat(NL, bsnl + 1), Clean(s[1..], q, 0));
    } else {
      LinesKept(s[1..], Quote(q, c), bsnl);
      EmitLines([c], Clean(s[1..], Quote(q, c), bsnl));
    }
  }

  lemma {:induction false} LinesTrigraph(s: seq<char>, q: char, bsnl: nat)
    requires At(s, 0) == '?' && At(s, 1) == '?' && Trigraph(At(s, 2)) != NUL
    ensures var r := Clean(s, q, bsnl); Newlines(r.out) + r.bsnl == Newlines(s) + bsnl
    decreases |s|, 0
  {
    var t := [Trigraph(At(s, 2))] + s[3..];
    LinesKept(t, q, bsnl);
    NewlinesSplit(s, 3);
    NewlinesJoin([Trigraph(s[2])], s[3..]);
    NewlinesOne(Trigraph(s[2]));
    NoneIn3(s[0], s[1], s[2]);
    assert s[..3] == [s[0], s[1], s[2]];
  }

  lemma NoneIn3(a: char, b: char, c: char)
    requires a != NL && b != NL && c != NL
    ensures Newlines([a, b, c]) == 0
  {
    assert [a, b, c][..2] == [a, b];
    assert [a, b][..1] == [a];
    NewlinesOne(a);
  }

  lemma {:induction false} LinesSplice(s: seq<char>, q: char, bsnl: nat)
    requires At(s, 0) == '\\' && Splice(s, 0) > 0
    ensures var r := Clean(s, q, bsnl); Newlines(r.out) + r.bsnl == Newlines(s) + bsnl
    decreases |s|, 0
  {
    var n := Splice(s, 0);
    SpliceFits(s, 0);
    LinesKept(s[n..], q, bsnl + 1);
    NewlinesSplit(s, n);
    AnySpliceLines(s);
  }

  lemma {:induction false} LinesEscape(s: seq<char>, q: char, bsnl: nat)
    requires At(s, 0) == '\\' && Splice(s, 0) == 0 && |s| > 1
    ensures var r := Clean(s, q, bsnl); Newlines(r.out) + r.bsnl == Newlines(s) + bsnl
    decreases |s|, 0
  {
    LinesKept(s[2..], q, bsnl);
    EmitLines(s[..2], Clean(s[2..], q, bsnl));
    NewlinesSplit(s, 2);
  }

  lemma {:induction false} LinesComment(s: seq<char>, bsnl: nat)
    requires At(s, 0) == '/' && (Pairs(s, '*') || Pairs(s, '/'))
    ensures var r := Clean(s, NUL, bsnl); Newlines(r.out) + r.bsnl == Newlines(s) + bsnl
    decreases |s|, 0
  {
    hide CommentSpan, LineSpan;
    var n := if Pairs(s, '*') then CommentSpan(s) else LineSpan(s);
    LinesKept(s[n..], NUL, bsnl + Newlines(s[..n]));
    EmitLines([' '], Clean(s[n..], NUL, bsnl + Newlines(s[..n])));
    NewlinesOne(' ');
    NewlinesSplit(s, n);
  }

  predicate Plain(c: char) {
    c !in {'?', '\\', CR, NL, '"', '\'', '/', NUL}
  }

  predicate AllPlain(s: seq<char>) {
    forall i :: 0 <= i < |s| ==> Plain(s[i])
  }

  /** Ordinary characters are copied as they are. */
  lemma {:induction false} PlainRun(run: seq<char>, rest: seq<char>, q: char, bsnl: nat)
    requires AllPlain(run)
    ensures Clean(run + rest, q, bsnl) == Emit(run, Clean(rest, q, bsnl))
    decreases |run|
  {
    if |run| == 0 {
      assert run + rest == rest;
    } else {
      assert (run + rest)[1..] == run[1..] + rest;
      PlainRun(run[1..], rest, q, bsnl);
      assert [run[0]] + run[1..] == run;
      var r := Clean(rest, q, bsnl);
      assert run + r.out == [run[0]] + (run[1..] + r.out);
    }
  }

  // ----- cleaning in place -----

  /** From here on the buffer is text that ends with a newline, then a NUL. */
  ghost predicate Pending(b: seq<char>, from: nat) {
    from < |b| && b[|b| - 1] == NUL && (forall i :: from <= i < |b| - 1 ==> b[i] != NUL)
    && (from < |b| - 1 ==> b[|b| - 2] == NL)
  }

  /** The text from a position to the NUL. */
  function Text(b: seq<char>, from: nat): seq<char>
    requires from < |b|
  {
    b[from..|b| - 1]
  }

  lemma TextAts(b: seq<char>, from: nat)
    requires from < |b| && b[|b| - 1] == NUL
    ensures forall k: nat :: from + k < |b| ==> At(Text(b, from), k) == b[from + k]
  {
  }

  /** Is there a splice k places on? The test reads on only past what it has
      matched, so never past the NUL. */
  function SpliceAt(b: seq<char>, from: nat, k: nat): (n: nat)
    requires from + k < |b| && Pending(b, from)
    ensures n == Splice(Text(b, from), k)
  {
    TextAts(b, from);
    var i := from + k;
    if b[i] == '\\' then
      if b[i + 1] == NL then 2 else if b[i + 1] == CR && b[i + 2] == NL then 3 else 0
    else if b[i] == '?' && b[i + 1] == '?' && b[i + 2] == '/' then
      if b[i + 3] == NL then 4 else if b[i + 3] == CR && b[i + 4] == NL then 5 else 0
    else 0
  }

  predicate PairsAt(b: seq<char>, from: nat, c: char)
    requires from < |b| - 1 && Pending(b, from) && c != NUL
    ensures PairsAt(b, from, c) == Pairs(Text(b, from), c)
  {
    TextAts(b, from);
    var n := SpliceAt(b, from, 1);
    b[from + 1] == c || (n > 0 && b[from + 1 + n] == c)
  }

  function PairLengthAt(b: seq<char>, from: nat, c: char): (n: nat)
    requires from < |b| - 1 && Pending(b, from) && c != NUL && PairsAt(b, from, c)
    ensures n == PairLength(Text(b, from), c)
  {
    TextAts(b, from);
    if b[from + 1] == c then 2
    else if b[from + 2] == CR || b[from + 4] == CR then if b[from + 1] == '?' then 7 else 5
    else if b[from + 1] == '?' then 6
    else 4
  }

  predicate ClosesAt(b: seq<char>, from: nat)
    requires from < |b| - 1 && Pending(b, from)
    ensures ClosesAt(b, from) == Closes(Text(b, from))
  {
    TextAts(b, from);
    var n := SpliceAt(b, from, 1);
    b[from] == '*' && (b[from + 1] == '/' || (n > 0 && n != 3 && b[from + 1 + n] == '/'))
  }

  /** memcpy, which here moves text toward the start of the buffer. */
  method MemCpy(buf: array<char>, to: nat, copy: nat, len: nat)
    requires to <= copy && copy + len <= buf.Length
    modifies buf
    ensures buf[..to] == old(buf[..to]) && buf[to..to + len] == old(buf[copy..copy + len])
    ensures buf[to + len..] == old(buf[to + len..])
  {
    var i := 0;
    while i < len
      invariant 0 <= i <= len
      invariant forall k :: 0 <= k < to || to + i <= k < buf.Length ==> buf[k] == old(buf[k])
      invariant forall k :: to <= k < to + i ==> buf[k] == old(buf[k + (copy - to)])
    {
      buf[to + i] := buf[copy + i];
      i := i + 1;
    }
  }

  /** From inside a C comment to where it closes, or to the NUL. */
  method ScanComment(b: seq<char>, from0: nat, bsnl0: nat) returns (from: nat, bsnl: nat)
    requires Pending(b, from0)
    ensures var s := Text(b, from0);
      from == from0 + CommentEnd(s) && bsnl == bsnl0 + Newlines(s[..CommentEnd(s)])
  {
    hide Closes, Newlines;
    ghost var s := Text(b, from0);
    ghost var k := 0;
    from, bsnl := from0, bsnl0;
    NoNewlines(s);
    while b[from] != NUL && !ClosesAt(b, from)
      invariant 0 <= k <= |s| && from == from0 + k < |b|
      invariant CommentEnd(s) == k + CommentEnd(s[k..])
      invariant bsnl == bsnl0 + Newlines(s[..k])
      decreases |b| - from
    {
      if b[from] == NL {
        bsnl := bsnl + 1;
      }
      NewlinesSnoc(s, k);
      assert s[k..] == Text(b, from);
      assert s[k..][1..] == s[k + 1..];
      k, from := k + 1, from + 1;
    }
    assert s[k..] == Text(b, from);
  }

  lemma NoNewlines(s: seq<char>)
    ensures Newlines(s[..0]) == 0
  {
  }

  /** Past a pair of characters that a splice may split. */
  method SkipPair(b: seq<char>, from0: nat, c: char, bsnl0: nat) returns (from: nat, bsnl: nat)
    requires Pending(b, from0) && from0 < |b| - 1 && c != NUL && c != NL && PairsAt(b, from0, c) && b[from0] != NL
    ensures var s := Text(b, from0);
      PairLength(s, c) <= |s| && from == from0 + PairLength(s, c) && bsnl == bsnl0 + Newlines(s[..PairLength(s, c)])
  {
    hide Newlines, PairLength, Pairs;
    PairNewlines(Text(b, from0), c);
    bsnl := if b[from0 + 1] == c then bsnl0 else bsnl0 + 1;
    from := from0 + PairLengthAt(b, from0, c);
  }

  /** The parts of a comment and their newlines. */
  lemma CommentParts(s: seq<char>)
    requires |s| > 0 && Pairs(s, '*')
    ensures 2 <= PairLength(s, '*') <= |s|
    ensures var open := PairLength(s, '*');
      var body := s[open..];
      var k := CommentEnd(body);
      if k == |body| then
        CommentSpan(s) == open + k && Newlines(s[..CommentSpan(s)]) == Newlines(s[..open]) + Newlines(body[..k])
      else
        Pairs(body[k..], '/') && body[k] == '*' && PairLength(body[k..], '/') <= |body[k..]|
        && CommentSpan(s) == open + k + PairLength(body[k..], '/')
        && Newlines(s[..CommentSpan(s)])
           == Newlines(s[..open]) + Newlines(body[..k]) + Newlines(body[k..][..PairLength(body[k..], '/')])
  {
    hide Newlines, CommentEnd, Closes, Pairs, PairLength;
    PairFits(s, '*');
    var open := PairLength(s, '*');
    var body := s[open..];
    var k := CommentEnd(body);
    CommentEndCloses(body);
    NewlinesParts(s, open, k);
    if k < |body| {
      ClosesIsPair(body[k..]);
      PairFits(body[k..], '/');
      NewlinesParts(s, open + k, PairLength(body[k..], '/'));
      assert s[open + k..] == body[k..];
    } else {
      assert s[..open + k] == s;
    }
  }

  lemma NewlinesParts(s: seq<char>, n: nat, k: nat)
    requires n + k <= |s|
    ensures Newlines(s[..n + k]) == Newlines(s[..n]) + Newlines(s[n..][..k])
  {
    assert s[..n + k] == s[..n] + s[n..][..k];
    NewlinesJoin(s[..n], s[n..][..k]);
  }

  /** Past a C comment that opens at `from0`: each newline in it is owed. */
  method SkipComment(b: seq<char>, from0: nat, bsnl0: nat) returns (from: nat, bsnl: nat)
    requires Pending(b, from0) && from0 < |b| - 1 && PairsAt(b, from0, '*') && b[from0] != NL
    ensures var s := Text(b, from0);
      from == from0 + CommentSpan(s) && bsnl == bsnl0 + Newlines(s[..CommentSpan(s)])
  {
    hide Closes, Newlines, Pairs, PairLength, CommentSpan, CommentEnd;
    ghost var s := Text(b, from0);
    CommentParts(s);
    ghost var body := s[PairLength(s, '*')..];
    ghost var k := CommentEnd(body);
    from, bsnl := SkipPair(b, from0, '*', bsnl0);
    assert body == Text(b, from);
    from, bsnl := ScanComment(b, from, bsnl);
    assert body[k..] == Text(b, from);
    if b[from] != NUL {
      from, bsnl := SkipPair(b, from, '/', bsnl);
    }
  }

  lemma ClosesIsPair(s: seq<char>)
    requires Closes(s)
    ensures |s| > 0 && Pairs(s, '/') && s[0] == '*'
  {
  }

  lemma NewlinesSnoc(s: seq<char>, n: nat)
    requires n < |s|
    ensures Newlines(s[..n + 1]) == Newlines(s[..n]) + if s[n] == NL then 1 else 0
  {
    assert s[..n + 1][..n] == s[..n];
  }

  /** A pair holds a newline exactly when it is split by a splice. */
  lemma PairNewlines(s: seq<char>, c: char)
    requires |s| > 0 && Pairs(s, c) && c != NUL && c != NL && s[0] != NL
    ensures PairLength(s, c) <= |s| && Newlines(s[..PairLength(s, c)]) == if s[1] == c then 0 else 1
  {
    hide Newlines;
    PairFits(s, c);
    NoNewlines(s);
    FirstNewlines(s, 0);
    FirstNewlines(s, 1);
    FirstNewlines(s, 2);
    FirstNewlines(s, 3);
    FirstNewlines(s, 4);
    FirstNewlines(s, 5);
    FirstNewlines(s, 6);
  }

  lemma FirstNewlines(s: seq<char>, n: nat)
    ensures n < |s| ==> Newlines(s[..n + 1]) == Newlines(s[..n]) + if s[n] == NL then 1 else 0
  {
    if n < |s| {
      NewlinesSnoc(s, n);
    }
  }

  /** Past the rest of a line, splices included. */
  method ScanLine(b: seq<char>, from0: nat, bsnl0: nat) returns (from: nat, bsnl: nat)
    requires Pending(b, from0)
    ensures var s := Text(b, from0);
      from == from0 + LineEnd(s) && bsnl == bsnl0 + Newlines(s[..LineEnd(s)])
  {
    hide Newlines, Splice, LineEnd;
    ghost var s := Text(b, from0);
    ghost var k := 0;
    from, bsnl := from0, bsnl0;
    NoNewlines(s);
    assert s[0..] == s;
    while b[from] != NUL && b[from] != NL
      invariant 0 <= k <= |s| && from == from0 + k < |b|
      invariant LineEnd(s) == k + LineEnd(s[k..])
      invariant bsnl == bsnl0 + Newlines(s[..k])
      decreases |b| - from
    {
      var n := SpliceAt(b, from, 0);
      assert s[k..] == Text(b, from);
      LineEndStep(s, k);
      if n > 0 {
        k, from, bsnl := k + n, from + n, bsnl + 1;
      } else {
        k, from := k + 1, from + 1;
      }
    }
    assert s[k..] == Text(b, from);
    LineEndStops(s[k..]);
  }

  lemma LineEndStops(s: seq<char>)
    requires |s| == 0 || s[0] == NL
    ensures LineEnd(s) == 0
  {
  }

  /** One step along a line. */
  lemma LineEndStep(s: seq<char>, k: nat)
    requires k < |s| && s[k] != NL
    ensures var n := Splice(s[k..], 0);
      if n > 0 then
        k + n <= |s| && LineEnd(s[k..]) == n + LineEnd(s[k + n..]) && Newlines(s[..k + n]) == Newlines(s[..k]) + 1
      else LineEnd(s[k..]) == 1 + LineEnd(s[k + 1..]) && Newlines(s[..k + 1]) == Newlines(s[..k])
  {
    hide Newlines, Splice;
    var n := Splice(s[k..], 0);
    if n > 0 {
      AnySpliceLines(s[k..]);
      assert s[..k + n] == s[..k] + s[k..][..n];
      NewlinesJoin(s[..k], s[k..][..n]);
      assert s[k..][n..] == s[k + n..];
    } else {
      NewlinesSnoc(s, k);
      assert s[k..][1..] == s[k + 1..];
    }
  }

  /** A splice holds one newline. */
  lemma AnySpliceLines(s: seq<char>)
    requires Splice(s, 0) > 0
    ensures Splice(s, 0) <= |s| && Newlines(s[..Splice(s, 0)]) == 1
  {
    hide Newlines;
    SpliceFits(s, 0);
    NoNewlines(s);
    FirstNewlines(s, 0);
    FirstNewlines(s, 1);
    FirstNewlines(s, 2);
    FirstNewlines(s, 3);
    FirstNewlines(s, 4);
  }

  /** Past a comment that ends with its line. */
  method SkipLine(b: seq<char>, from0: nat, bsnl0: nat) returns (from: nat, bsnl: nat)
    requires Pending(b, from0) && from0 < |b| - 1 && PairsAt(b, from0, '/') && b[from0] != NL
    ensures var s := Text(b, from0);
      from == from0 + LineSpan(s) && bsnl == bsnl0 + Newlines(s[..LineSpan(s)])
  {
    hide Newlines, Pairs, PairLength, LineEnd;
    ghost var s := Text(b, from0);
    PairFits(s, '/');
    ghost var open := PairLength(s, '/');
    ghost var body := s[open..];
    from, bsnl := SkipPair(b, from0, '/', bsnl0);
    assert body == Text(b, from);
    from, bsnl := ScanLine(b, from, bsnl);
    NewlinesJoin(s[..open], body[..LineEnd(body)]);
    assert s[..open + LineEnd(body)] == s[..open] + body[..LineEnd(body)];
  }

  // ----- the loop -----

  /** So far b[..to] is out and the text from `from` on is to be cleaned; what
      is out and what is owed fits in what has been read. */
  ghost predicate Cleaning(b: seq<char>, goal: Cleaned, to: nat, from: nat, q: char, bsnl: nat) {
    to + bsnl <= from && Pending(b, from) && goal == Emit(b[..to], Clean(Text(b, from), q, bsnl))
  }

  /** One step: n characters read, w written. */
  lemma Advance(b: seq<char>, b': seq<char>, goal: Cleaned, to: nat, from: nat, q: char, bsnl: nat,
                w: seq<char>, n: nat, q': char, bsnl': nat)
    requires Cleaning(b, goal, to, from, q, bsnl) && from + n < |b| == |b'|
    requires Clean(Text(b, from), q, bsnl) == Emit(w, Clean(Text(b, from)[n..], q', bsnl'))
    requires |w| + bsnl' <= n + bsnl
    requires b'[..to + |w|] == b[..to] + w && b'[from + n..] == b[from + n..]
    ensures Cleaning(b', goal, to + |w|, from + n, q', bsnl')
  {
    hide Clean;
    assert Text(b', from + n) == b'[from + n..][..|b| - 1 - from - n] == Text(b, from)[n..];
    var r := Clean(Text(b, from)[n..], q', bsnl');
    assert b[..to] + (w + r.out) == (b[..to] + w) + r.out;
    forall i | from + n <= i < |b| - 1 ensures b'[i] != NUL {
      assert b'[i] == b'[from + n..][i - from - n] == b[from + n..][i - from - n];
    }
    assert b'[|b| - 1] == b'[from + n..][|b| - 1 - from - n] == b[from + n..][|b| - 1 - from - n];
    if from + n < |b| - 1 {
      assert b'[|b| - 2] == b'[from + n..][|b| - 2 - from - n] == b[from + n..][|b| - 2 - from - n];
    }
  }

  /** The length of the run of ordinary characters at a position. */
  method RunLength(b: seq<char>, from: nat) returns (len: nat)
    requires Pending(b, from)
    ensures from + len < |b| && !Plain(b[from + len])
    ensures AllPlain(Text(b, from)[..len])
  {
    len := 0;
    while Plain(b[from + len])
      invariant from + len < |b| && AllPlain(Text(b, from)[..len])
      decreases |b| - len
    {
      assert Text(b, from)[len] == b[from + len];
      len := len + 1;
    }
  }

  // What cleaning does for each character the loop looks at.

  lemma CleanBackslash(s: seq<char>, q: char, bsnl: nat)
    requires |s| > 1 && s[0] == '\\'
    ensures Clean(s, q, bsnl)
         == if At(s, 1) == NL then Emit([], Clean(s[2..], q, bsnl + 1))
            else if At(s, 1) == CR && At(s, 2) == NL then Emit([], Clean(s[3..], q, bsnl + 1))
            else Emit(s[..2], Clean(s[2..], q, bsnl))
  {
  }

  lemma RepeatMore(a: seq<char>, c: char, n: nat)
    ensures (a + Repeat(c, n)) + [c] == a + Repeat(c, n + 1)
  {
    assert Repeat(c, n + 1) == Repeat(c, n) + [c];
  }

  lemma CleanNewline(s: seq<char>, q: char, bsnl: nat)
    requires |s| > 0 && s[0] == NL
    ensures Clean(s, q, bsnl) == Emit(Repeat(NL, bsnl + 1), Clean(s[1..], q, 0))
  {
  }

  lemma CleanSlash(s: seq<char>, q: char, bsnl: nat)
    requires |s| > 0 && s[0] == '/'
    ensures Clean(s, q, bsnl)
         == if q == NUL && Pairs(s, '*') then
              Emit([' '], Clean(s[CommentSpan(s)..], q, bsnl + Newlines(s[..CommentSpan(s)])))
            else if q == NUL && Pairs(s, '/') then
              Emit([' '], Clean(s[LineSpan(s)..], q, bsnl + Newlines(s[..LineSpan(s)])))
            else Emit([s[0]], Clean(s[1..], q, bsnl))
  {
    hide Pairs, CommentSpan, LineSpan, Newlines;
  }

  /** The cursors and counters of the routine. */
  class Cleaner {
    const buf: array<char>
    var from: nat
    var to: nat
    var bsnl: nat
    var instr: char        // the quote the text is in, or NUL
    var linecount: nat
    ghost const goal: Cleaned
    ghost const input: nat // newlines in the input

    constructor (buf: array<char>)
      requires Pending(buf[..], 0)
      ensures this.buf == buf && Valid() && from == to == 0
      ensures goal == Clean(Text(buf[..], 0), NUL, 0) && input == Newlines(Text(buf[..], 0))
      ensures linecount == 0
    {
      this.buf := buf;
      from, to, bsnl, instr, linecount := 0, 0, 0, NUL, 0;
      goal := Clean(Text(buf[..], 0), NUL, 0);
      input := Newlines(Text(buf[..], 0));
      new;
      LinesKept(Text(buf[..], 0), NUL, 0);
    }

    /** The newlines of the result and those owed at its end are the input's. */
    ghost predicate Counted() {
      Newlines(goal.out) + goal.bsnl == input
    }

    ghost predicate Valid()
      reads this, buf
    {
      Counted() && Cleaning(buf[..], goal, to, from, instr, bsnl)
    }

    /** Copy the next n characters, one at a time. */
    method Copy()
      requires to <= from < buf.Length
      modifies this`to, this`from, buf
      ensures to == old(to) + 1 && from == old(from) + 1
      ensures buf[..to] == old(buf[..to]) + [old(buf[from])] && buf[from..] == old(buf[from + 1..])
    {
      buf[to] := buf[from];
      to, from := to + 1, from + 1;
    }

    /** Copy the run of ordinary characters at the read cursor. */
    method CopyRun()
      requires Valid()
      modifies this, buf
      ensures Valid() && from < buf.Length && !Plain(buf[from]) && from >= old(from)
    {
      hide Cleaning, Clean, Counted;
      Unpack(buf[..], goal, to, from, instr, bsnl);
      ghost var s, was, at, start := Text(buf[..], from), buf[..], to, from;
      var len := MoveRun();
      PlainRun(s[..len], s[len..], instr, bsnl);
      assert s == s[..len] + s[len..];
      Advance(was, buf[..], goal, at, start, instr, bsnl, s[..len], len, instr, bsnl);
    }

    /** Find the run, move it and both cursors. */
    method MoveRun() returns (len: nat)
      requires to <= from && Pending(buf[..], from)
      modifies this`to, this`from, buf
      ensures from == old(from) + len < buf.Length && to == old(to) + len
      ensures var s := old(Text(buf[..], from));
        len <= |s| && AllPlain(s[..len]) && buf[..to] == old(buf[..to]) + s[..len]
      ensures buf[from..] == old(buf[..])[from..] && !Plain(buf[from])
    {
      ghost var was := buf[..];
      var copy := from;
      len := RunLength(buf[..], from);
      MemCpy(buf, to, copy, len);
      RunMoved(was, buf[..], to, copy, len);
      from, to := from + len, to + len;
      assert buf[from] == was[from..][0];
    }

    /** Is the routine at the NUL? */
    predicate AtEnd()
      requires Valid()
      reads this, buf
    {
      Unpack(buf[..], goal, to, from, instr, bsnl);
      from == buf.Length - 1
    }

    /** Copy one character into the output; the text is then in quote q. */
    method Keep(q: char)
      requires Valid() && !AtEnd()
      requires var s := Text(buf[..], from);
        Clean(s, instr, bsnl) == Emit([s[0]], Clean(s[1..], q, bsnl))
      modifies this, buf
      ensures Valid() && from == old(from) + 1
    {
      hide Cleaning, Clean, Counted;
      Unpack(buf[..], goal, to, from, instr, bsnl);
      ghost var s, was, at, start := Text(buf[..], from), buf[..], to, from;
      Copy();
      Advance(was, buf[..], goal, at, start, instr, bsnl, [s[0]], 1, q, bsnl);
      instr := q;
    }

    /** At every point the newlines written, those owed and those still to be read
        are the newlines of the input. */
    lemma Balanced()
      requires Valid()
      ensures Newlines(buf[..to]) + bsnl + Newlines(Text(buf[..], from)) == input
    {
      var s := Text(buf[..], from);
      LinesKept(s, instr, bsnl);
      EmitLines(buf[..to], Clean(s, instr, bsnl));
    }

    /** A question mark, maybe the start of a trigraph: the character it stands
        for is put back to be looked at next. */
    method Question()
      requires Valid() && !AtEnd() && buf[from] == '?'
      modifies this, buf
      ensures Valid() && buf.Length - from < old(buf.Length - from)
    {
      hide Cleaning, Counted;
      Unpack(buf[..], goal, to, from, instr, bsnl);
      TextAts(buf[..], from);
      ghost var s, was, start := Text(buf[..], from), buf[..], from;
      if buf[from + 1] == '?' {
        var c := Trigraph(buf[from + 2]);
        if c == NUL {
          Keep(instr);
        } else {
          from := from + 2;
          buf[from] := c;
          PutBack(was, buf[..], goal, to, start, instr, bsnl);
        }
      } else {
        Keep(instr);
      }
    }

    /** A backslash: a spliced newline is owed, an escape is copied whole. */
    method Backslash()
      requires Valid() && !AtEnd() && buf[from] == '\\'
      modifies this, buf
      ensures Valid() && buf.Length - from < old(buf.Length - from)
    {
      hide Cleaning, Clean, Pairs, CommentSpan, LineSpan, Newlines;
      Unpack(buf[..], goal, to, from, instr, bsnl);
      TextAts(buf[..], from);
      ghost var s, was, at, start := Text(buf[..], from), buf[..], to, from;
      NotLast(was, from);
      CleanBackslash(s, instr, bsnl);
      if buf[from + 1] == NL {
        from, bsnl := from + 2, bsnl + 1;
        Advance(was, buf[..], goal, at, start, instr, bsnl - 1, [], 2, instr, bsnl);
      } else if buf[from + 1] == CR && buf[from + 2] == NL {
        from, bsnl := from + 3, bsnl + 1;
        Advance(was, buf[..], goal, at, start, instr, bsnl - 1, [], 3, instr, bsnl);
      } else {
        Copy();
        Copy();
        Advance(was, buf[..], goal, at, start, instr, bsnl, s[..2], 2, instr, bsnl);
      }
    }

    /** A newline: the ones owed go out before it. */
    method Newline()
      requires Valid() && !AtEnd() && buf[from] == NL
      modifies this, buf
      ensures Valid() && from == old(from) + 1 && bsnl == 0 && linecount == old(linecount + bsnl + 1)
    {
      hide Cleaning, Clean, Counted;
      Unpack(buf[..], goal, to, from, instr, bsnl);
      ghost var s, was, at, start, owed := Text(buf[..], from), buf[..], to, from, bsnl;
      CleanNewline(s, instr, bsnl);
      linecount := linecount + bsnl + 1;
      WriteNewlines();
      Advance(was, buf[..], goal, at, start, instr, owed, Repeat(NL, owed + 1), 1, instr, 0);
    }

    /** Write the newlines owed, then copy the one at the read cursor. */
    method WriteNewlines()
      requires to + bsnl <= from < buf.Length && buf[from] == NL
      modifies this`to, this`from, this`bsnl, buf
      ensures bsnl == 0 && to == old(to + bsnl) + 1 && from == old(from) + 1
      ensures buf[..to] == old(buf[..to]) + Repeat(NL, old(bsnl) + 1) && buf[from..] == old(buf[from + 1..])
    {
      ghost var was, start, owed, at := buf[..], to, bsnl, from;
      PayBack();
      Copy();
      RepeatMore(was[..start], NL, owed);
      assert was[at..][1..] == was[at + 1..];
    }

    /** Write the newlines owed. */
    method PayBack()
      requires to + bsnl <= from < buf.Length
      modifies this`to, this`bsnl, buf
      ensures bsnl == 0 && to == old(to + bsnl)
      ensures buf[..to] == old(buf[..to] + Repeat(NL, bsnl)) && buf[from..] == old(buf[from..])
    {
      while bsnl > 0
        invariant 0 <= bsnl <= old(bsnl) && to + bsnl == old(to + bsnl)
        invariant buf[..to] == old(buf[..to]) + Repeat(NL, old(bsnl) - bsnl) && buf[from..] == old(buf[from..])
      {
        buf[to] := NL;
        to, bsnl := to + 1, bsnl - 1;
      }
    }

    /** A slash: a comment becomes one space. */
    method Slash()
      requires Valid() && !AtEnd() && buf[from] == '/'
      modifies this, buf
      ensures Valid() && buf.Length - from < old(buf.Length - from)
    {
      hide Cleaning, Clean, Pairs, CommentSpan, LineSpan, Newlines;
      Unpack(buf[..], goal, to, from, instr, bsnl);
      ghost var s, was, at, start, owed := Text(buf[..], from), buf[..], to, from, bsnl;
      CleanSlash(s, instr, bsnl);
      if instr == NUL && PairsAt(buf[..], from, '*') {
        from, bsnl := SkipComment(buf[..], from, bsnl);
        NewlinesBelow(s, CommentSpan(s));
        Space(was, at, start, owed, CommentSpan(s));
      } else if instr == NUL && PairsAt(buf[..], from, '/') {
        from, bsnl := SkipLine(buf[..], from, bsnl);
        NewlinesBelow(s, LineSpan(s));
        Space(was, at, start, owed, LineSpan(s));
      } else {
        Keep(instr);
      }
    }

    /** Write the space for a comment of n characters. */
    method Space(ghost was: seq<char>, ghost at: nat, ghost start: nat, ghost owed: nat, ghost n: nat)
      requires Counted() && was == buf[..] && at == to && Cleaning(was, goal, at, start, instr, owed)
      requires from == start + n < buf.Length && 1 + bsnl <= n + owed && n > 0
      requires Clean(Text(was, start), instr, owed) == Emit([' '], Clean(Text(was, start)[n..], instr, bsnl))
      modifies `to, buf
      ensures Valid()
    {
      hide Cleaning, Clean, Counted;
      Unpack(was, goal, at, start, instr, owed);
      buf[to] := ' ';
      to := to + 1;
      Advance(was, buf[..], goal, at, start, instr, owed, [' '], n, instr, bsnl);
    }

    /** A carriage return is skipped. */
    method Return()
      requires Valid() && !AtEnd() && buf[from] == CR
      modifies this, buf
      ensures Valid() && from == old(from) + 1
    {
      hide Cleaning, Counted;
      Unpack(buf[..], goal, to, from, instr, bsnl);
      ghost var s := Text(buf[..], from);
      assert Clean(s, instr, bsnl) == Emit([], Clean(s[1..], instr, bsnl));
      Advance(buf[..], buf[..], goal, to, from, instr, bsnl, [], 1, instr, bsnl);
      from := from + 1;
    }

    /** The loop. */
    method Cleanup()
      requires Valid()
      modifies this, buf
      ensures to <= from == buf.Length - 1 && buf[to] == NUL && buf[..to] == goal.out && bsnl == goal.bsnl
      ensures Counted()
    {
      hide Cleaning, Clean, Counted;
      while true
        invariant Valid()
        decreases buf.Length - from
      {
        CopyRun();
        Unpack(buf[..], goal, to, from, instr, bsnl);
        var c := buf[from];
        if c == NUL {
          AllRead(buf[..], goal, to, from, instr, bsnl);
          buf[to] := NUL;
          return;
        } else if c == '?' {
          Question();
        } else if c == '\\' {
          Backslash();
        } else if c == CR {
          Return();
        } else if c == NL {
          Newline();
        } else if c == '/' {
          Slash();
        } else {
          ghost var s := Text(buf[..], from);
          CleanQuote(s, instr, bsnl);
          Keep(Quote(instr, c));
        }
      }
    }
  }

  lemma CleanQuote(s: seq<char>, q: char, bsnl: nat)
    requires |s| > 0 && (s[0] == '"' || s[0] == '\'')
    ensures Clean(s, q, bsnl) == Emit([s[0]], Clean(s[1..], Quote(q, s[0]), bsnl))
  {
  }

  /** At the NUL everything is out. */
  lemma AllRead(b: seq<char>, goal: Cleaned, to: nat, from: nat, q: char, bsnl: nat)
    requires Cleaning(b, goal, to, from, q, bsnl) && b[from] == NUL
    ensures from == |b| - 1 && b[..to] == goal.out && bsnl == goal.bsnl
  {
    assert Text(b, |b| - 1) == [];
  }

  /** Cleaning a buffer in place leaves in it what cleaning its text into a new
      buffer gives, ended by a NUL; all its newlines are there or owed. */
  method CleanupBuf(buf: array<char>) returns (len: nat, bsnl: nat)
    requires Pending(buf[..], 0)
    modifies buf
    ensures len < buf.Length && buf[len] == NUL
    ensures Cleaned(buf[..len], bsnl) == Clean(old(buf[..buf.Length - 1]), NUL, 0)
    ensures Newlines(buf[..len]) + bsnl == Newlines(old(buf[..buf.Length - 1]))
  {
    hide Clean, Newlines;
    var c := new Cleaner(buf);
    assert Text(buf[..], 0) == buf[..buf.Length - 1];
    c.Cleanup();
    len, bsnl := c.to, c.bsnl;
  }

  /** What MemCpy did, seen from both cursors. */
  lemma RunMoved(b: seq<char>, b': seq<char>, to: nat, copy: nat, len: nat)
    requires |b'| == |b| && to <= copy && copy + len < |b|
    requires b'[..to] == b[..to] && b'[to..to + len] == b[copy..copy + len] && b'[to + len..] == b[to + len..]
    ensures b'[..to + len] == b[..to] + Text(b, copy)[..len] && b'[copy + len..] == b[copy + len..]
  {
    assert b'[..to + len] == b'[..to] + b'[to..to + len];
    assert b[copy..copy + len] == Text(b, copy)[..len];
    assert b'[copy + len..] == b'[to + len..][copy - to..];
  }

  /** A trigraph's character has been put back over its last one. */
  lemma PutBack(b: seq<char>, b': seq<char>, goal: Cleaned, to: nat, from: nat, q: char, bsnl: nat)
    requires Cleaning(b, goal, to, from, q, bsnl) && from + 2 < |b|
    requires b[from] == b[from + 1] == '?' && Trigraph(b[from + 2]) != NUL
    requires b' == b[from + 2 := Trigraph(b[from + 2])]
    ensures Cleaning(b', goal, to, from + 2, q, bsnl)
  {
    var s := Text(b, from);
    TextAts(b, from);
    assert Text(b', from + 2) == [Trigraph(s[2])] + s[3..];
    assert Clean(s, q, bsnl) == Clean([Trigraph(s[2])] + s[3..], q, bsnl);
    hide Clean;
    assert b'[..to] == b[..to];
  }

  /** Anything but a newline is followed by something. */
  lemma NotLast(b: seq<char>, from: nat)
    requires Pending(b, from) && from < |b| - 1 && b[from] != NL
    ensures from + 1 < |b| - 1
  {
  }

  lemma Unpack(b: seq<char>, goal: Cleaned, to: nat, from: nat, q: char, bsnl: nat)
    requires Cleaning(b, goal, to, from, q, bsnl)
    ensures to + bsnl <= from < |b| && Pending(b, from)
  {
  }
}
