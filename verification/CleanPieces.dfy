/** What cleaning is for, text by text: literals are kept, comments become a
    space, spliced lines are joined and their newlines made good, trigraphs are
    replaced. Stated on the pieces of a source text and not on its characters. */
module CleanPieces {
  import opened CleanBuffer

  /** Section 5.2.1.1 of ISO/IEC 9899:1990: two question marks and one of these. */
  const TRIGRAPHS: map<char, char> := map[
    '=' := '#', '(' := '[', '/' := '\\', ')' := ']', '\'' := '^', '<' := '{', '!' := '|', '>' := '}', '-' := '~'
  ]

  lemma TrigraphTable(c: char)
    ensures Trigraph(c) == if c in TRIGRAPHS then TRIGRAPHS[c] else NUL
  {
  }

  predicate NoTrigraph(s: seq<char>) {
    forall i :: 0 <= i < |s| - 2 && s[i] == '?' && s[i + 1] == '?' ==> s[i + 2] !in TRIGRAPHS
  }

  // ----- string literals and character constants -----

  /** A character of a literal, a backslash and the character it escapes, or a
      spliced line. */
  datatype Unit = Char(c: char) | Escape(c: char) | Splicing(cr: bool)

  function UnitText(u: Unit): (s: seq<char>)
    ensures |s| > 0
  {
    match u
    case Char(c) => [c]
    case Escape(c) => ['\\', c]
    case Splicing(cr) => if cr then ['\\', CR, NL] else ['\\', NL]
  }

  function Spelled(body: seq<Unit>): seq<char> {
    if |body| == 0 then [] else UnitText(body[0]) + Spelled(body[1..])
  }

  /** What is kept of a literal, and how many lines were spliced in it. */
  function Kept(body: seq<Unit>): seq<char> {
    if |body| == 0 then [] else (if body[0].Splicing? then [] else UnitText(body[0])) + Kept(body[1..])
  }

  function Splices(body: seq<Unit>): nat {
    if |body| == 0 then 0 else (if body[0].Splicing? then 1 else 0) + Splices(body[1..])
  }

  predicate Literal(q: char, body: seq<Unit>) {
    && (q == '"' || q == '\'')
    && (forall i :: 0 <= i < |body| ==> LiteralUnit(q, body[i]))
    && NoTrigraph(Spelled(body) + [q])
  }

  predicate LiteralUnit(q: char, u: Unit) {
    match u
    case Char(c) => c != q && c != '\\' && c != NL && c != CR
    case Escape(c) => c != NL && c != CR
    case Splicing(_) => true
  }

  lemma Closing(q: char, rest: seq<char>, bsnl: nat)
    requires q == '"' || q == '\''
    ensures Clean([q] + rest, q, bsnl) == Emit([q], Clean(rest, NUL, bsnl))
  {
    assert ([q] + rest)[1..] == rest;
  }

  /** From inside a literal, it is copied to its closing quote. */
  lemma {:induction false} BodyCopied(q: char, body: seq<Unit>, rest: seq<char>, bsnl: nat)
    requires Literal(q, body)
    ensures Clean(Spelled(body) + ([q] + rest), q, bsnl)
         == Emit(Kept(body) + [q], Clean(rest, NUL, bsnl + Splices(body)))
    decreases |body|
  {
    hide Clean, Literal, UnitText;
    QuoteMark(q, body);
    if |body| == 0 {
      assert Spelled(body) + ([q] + rest) == [q] + rest;
      assert Kept(body) + [q] == [q];
      Closing(q, rest, bsnl);
    } else {
      var first, after := UnitText(body[0]), Spelled(body[1..]) + ([q] + rest);
      assert Spelled(body) + ([q] + rest) == first + after;
      TailLiteral(q, body);
      UnitStep(q, body, rest, bsnl);
      if body[0].Splicing? {
        BodyCopied(q, body[1..], rest, bsnl + 1);
        assert Kept(body) == Kept(body[1..]);
      } else {
        BodyCopied(q, body[1..], rest, bsnl);
        EmitTwice(first, Kept(body[1..]) + [q], Clean(rest, NUL, bsnl + Splices(body)));
        assert first + (Kept(body[1..]) + [q]) == Kept(body) + [q];
      }
    }
  }

  lemma EmitTwice(a: seq<char>, b: seq<char>, r: Cleaned)
    ensures Emit(a, Emit(b, r)) == Emit(a + b, r)
  {
    assert a + (b + r.out) == (a + b) + r.out;
  }

  lemma QuoteMark(q: char, body: seq<Unit>)
    requires Literal(q, body)
    ensures q == '"' || q == '\''
  {
  }

  lemma TailLiteral(q: char, body: seq<Unit>)
    requires Literal(q, body) && |body| > 0
    ensures Literal(q, body[1..])
  {
    hide UnitText;
    var first, tail := UnitText(body[0]), Spelled(body[1..]) + [q];
    var all := Spelled(body) + [q];
    assert all == first + tail;
    forall i | 0 <= i < |tail| - 2 && tail[i] == '?' && tail[i + 1] == '?' ensures tail[i + 2] !in TRIGRAPHS {
      var j := |first| + i;
      assert all[j] == '?' && all[j + 1] == '?' && all[j + 2] == tail[i + 2];
    }
  }

  /** The first unit is copied, or drops out, and leaves the text in its quote. */
  lemma UnitStep(q: char, body: seq<Unit>, rest: seq<char>, bsnl: nat)
    requires Literal(q, body) && |body| > 0
    ensures var first, after := UnitText(body[0]), Spelled(body[1..]) + ([q] + rest);
      Clean(first + after, q, bsnl)
      == if body[0].Splicing? then Clean(after, q, bsnl + 1) else Emit(first, Clean(after, q, bsnl))
  {
    var u := body[0];
    var first, after := UnitText(u), Spelled(body[1..]) + ([q] + rest);
    assert LiteralUnit(q, u);
    if u.Char? {
      var all := Spelled(body) + [q];
      assert first + after == all + rest;
      assert (first + after)[1..] == after;
      assert forall i :: 0 <= i < |all| ==> (first + after)[i] == all[i];
      CharStep(q, u.c, after, bsnl, all, rest);
    } else {
      assert (first + after)[|first|..] == after && (first + after)[..|first|] == first;
      assert (first + after)[0] == '\\' && (first + after)[1] == first[1];
      if u.Splicing? && u.cr { assert (first + after)[2] == NL; }
    }
  }

  lemma CharStep(q: char, c: char, after: seq<char>, bsnl: nat, all: seq<char>, rest: seq<char>)
    requires (q == '"' || q == '\'') && c != q && c != '\\' && c != NL && c != CR
    requires [c] + after == all + rest && |all| >= 2 && all[|all| - 1] == q && NoTrigraph(all)
    ensures Clean([c] + after, q, bsnl) == Emit([c], Clean(after, q, bsnl))
  {
    var s := [c] + after;
    assert s[1..] == after && s[0] == c;
    assert s[0] == all[0] && s[1] == all[1];
    if c == '?' && s[1] == '?' {
      TrigraphTable(At(s, 2));
      if |all| > 2 { assert s[2] == all[2]; }
    }
  }

  /** A literal comes out as it stands, whatever looks like a comment in it. */
  lemma LiteralCopied(q: char, body: seq<Unit>, rest: seq<char>, bsnl: nat)
    requires Literal(q, body)
    ensures Clean([q] + Spelled(body) + [q] + rest, NUL, bsnl)
         == Emit([q] + Kept(body) + [q], Clean(rest, NUL, bsnl + Splices(body)))
  {
    hide Literal, Spelled, Kept, Splices;
    QuoteMark(q, body);
    var s := Spelled(body) + ([q] + rest);
    assert [q] + Spelled(body) + [q] + rest == [q] + s;
    OpeningQuote(q, s, bsnl);
    BodyCopied(q, body, rest, bsnl);
    EmitTwice([q], Kept(body) + [q], Clean(rest, NUL, bsnl + Splices(body)));
    assert [q] + (Kept(body) + [q]) == [q] + Kept(body) + [q];
  }

  lemma OpeningQuote(q: char, s: seq<char>, bsnl: nat)
    requires q == '"' || q == '\''
    ensures Clean([q] + s, NUL, bsnl) == Emit([q], Clean(s, q, bsnl))
  {
    assert ([q] + s)[1..] == s;
  }

  // ----- comments -----

  /** The body of a comment in slashes and stars. No star stands before the
      slash that would close it, or before what may be a splice. */
  predicate Comment(body: seq<char>) {
    forall i :: 0 <= i < |body| && body[i] == '*' ==>
      (if i + 1 < |body| then body[i + 1] else '*') !in {'/', '\\', '?'}
  }

  /** Between the two characters that open or close a comment a line may be
      spliced, with a backslash or its trigraph. */
  datatype Seam = Direct | Broken(tri: bool, cr: bool)

  function SeamText(s: Seam): seq<char> {
    match s
    case Direct => []
    case Broken(tri, cr) => (if tri then ['?', '?', '/'] else ['\\']) + (if cr then [CR, NL] else [NL])
  }

  function Lines(s: Seam): nat {
    if s.Direct? then 0 else 1
  }

  function Mark(a: char, s: Seam, b: char): seq<char> {
    [a] + SeamText(s) + [b]
  }

  /** A mark is found, and its length. A carriage return after a mark spliced by
      backslash and newline would be taken as part of it. */
  lemma MarkFound(a: char, s: Seam, b: char, after: seq<char>)
    requires a in {'/', '*'} && b in {'/', '*'}
    requires s == Broken(false, false) ==> after == [] || after[0] != CR
    ensures var t := Mark(a, s, b) + after;
      && Pairs(t, b) && (b == '/' ==> !Pairs(t, '*')) && PairLength(t, b) == |Mark(a, s, b)|
      && t[|Mark(a, s, b)|..] == after && t[..|Mark(a, s, b)|] == Mark(a, s, b) && t[0] == a
  {
    var m := Mark(a, s, b);
    var t := m + after;
    assert t[|m|..] == after && t[..|m|] == m;
    assert forall i :: 0 <= i < |m| ==> t[i] == m[i];
    if after != [] { assert t[|m|] == after[0]; }
  }

  lemma CloserFound(s: Seam, after: seq<char>)
    requires s != Broken(false, true)
    requires s == Broken(false, false) ==> after == [] || after[0] != CR
    ensures Closes(Mark('*', s, '/') + after)
  {
    var m := Mark('*', s, '/');
    var t := m + after;
    assert forall i :: 0 <= i < |m| ==> t[i] == m[i];
  }

  /** The closing pair is not seen when a backslash, carriage return and newline
      are between its characters; an opening one is. */
  lemma CloserMissed(after: seq<char>)
    ensures !Closes(Mark('*', Broken(false, true), '/') + after)
  {
    var m := Mark('*', Broken(false, true), '/');
    var t := m + after;
    assert forall i :: 0 <= i < |m| ==> t[i] == m[i];
  }

  lemma MarkLines(a: char, s: Seam, b: char)
    requires a != NL && b != NL
    ensures Newlines(Mark(a, s, b)) == Lines(s)
  {
    hide Newlines;
    NewlinesJoin([a] + SeamText(s), [b]);
    NewlinesJoin([a], SeamText(s));
    NewlinesOne(a);
    NewlinesOne(b);
    SeamLines(s);
  }

  lemma SeamLines(s: Seam)
    ensures Newlines(SeamText(s)) == Lines(s)
  {
    if s.Broken? {
      var front, back := if s.tri then ['?', '?', '/'] else ['\\'], if s.cr then [CR] else [];
      assert SeamText(s) == front + (back + [NL]);
      NewlinesJoin(front, back + [NL]);
      NewlinesJoin(back, [NL]);
      NoneIn(front);
      NoneIn(back);
      NewlinesOne(NL);
    }
  }

  lemma {:induction false} CommentEnds(body: seq<char>, closer: seq<char>)
    requires Comment(body) && closer != [] && closer[0] == '*' && Closes(closer)
    ensures CommentEnd(body + closer) == |body|
    decreases |body|
  {
    hide Splice;
    var s := body + closer;
    if |body| == 0 {
      assert s == closer;
    } else {
      assert s[0] == body[0] && s[1] == if |body| > 1 then body[1] else '*';
      assert s[1..] == body[1..] + closer;
      forall i | 0 <= i < |body[1..]| && body[1..][i] == '*'
        ensures (if i + 1 < |body[1..]| then body[1..][i + 1] else '*') !in {'/', '\\', '?'}
      {
        assert body[i + 1] == '*';
      }
      CommentEnds(body[1..], closer);
      if body[0] == '*' { NoSplice(s, 1); }
    }
  }

  lemma NoSplice(s: seq<char>, k: nat)
    requires At(s, k) != '\\' && At(s, k) != '?'
    ensures Splice(s, k) == 0
  {
  }

  lemma CommentSpans(open: Seam, body: seq<char>, close: Seam, rest: seq<char>)
    requires Comment(body) && close != Broken(false, true)
    requires open == Broken(false, false) ==> body == [] || body[0] != CR
    requires close == Broken(false, false) ==> rest == [] || rest[0] != CR
    ensures var s := Mark('/', open, '*') + (body + (Mark('*', close, '/') + rest));
      s[0] == '/' && Pairs(s, '*') && CommentSpan(s) == |Mark('/', open, '*')| + |body| + |Mark('*', close, '/')|
  {
    hide Pairs, PairLength, Splice, Mark, Closes, Newlines, Comment;
    var m, n := Mark('/', open, '*'), Mark('*', close, '/');
    var tail := body + (n + rest);
    StarFirst(close);
    assert tail[0] == if body == [] then '*' else body[0];
    MarkFound('/', open, '*', tail);
    MarkFound('*', close, '/', rest);
    assert (n + rest)[0] == '*';
    CloserFound(close, rest);
    CommentEnds(body, n + rest);
    assert tail[|body|..] == n + rest;
  }

  lemma MarksLines(open: Seam, body: seq<char>, close: Seam)
    ensures Newlines(Mark('/', open, '*') + (body + Mark('*', close, '/')))
         == Lines(open) + Newlines(body) + Lines(close)
  {
    hide Mark, Newlines;
    var m, n := Mark('/', open, '*'), Mark('*', close, '/');
    NewlinesJoin(m, body + n);
    NewlinesJoin(body, n);
    MarkLines('/', open, '*');
    MarkLines('*', close, '/');
  }

  /** A comment becomes one space; the newlines in it are owed. */
  lemma CommentIsSpace(open: Seam, body: seq<char>, close: Seam, rest: seq<char>, bsnl: nat)
    requires Comment(body) && close != Broken(false, true)
    requires open == Broken(false, false) ==> body == [] || body[0] != CR
    requires close == Broken(false, false) ==> rest == [] || rest[0] != CR
    ensures Clean(Mark('/', open, '*') + body + Mark('*', close, '/') + rest, NUL, bsnl)
         == Emit([' '], Clean(rest, NUL, bsnl + Lines(open) + Newlines(body) + Lines(close)))
  {
    hide Clean, Pairs, PairLength, Splice, Mark, Closes, Newlines, Comment, CommentSpan, Emit;
    var m, n := Mark('/', open, '*'), Mark('*', close, '/');
    var s := m + body + n + rest;
    assert s == m + (body + (n + rest));
    CommentSpans(open, body, close, rest);
    var span := |m| + |body| + |n|;
    assert s[span..] == rest && s[..span] == m + (body + n);
    MarksLines(open, body, close);
    SlashComment(s, bsnl);
  }

  lemma StarFirst(close: Seam)
    ensures Mark('*', close, '/') != [] && Mark('*', close, '/')[0] == '*'
  {
  }

  lemma SlashComment(s: seq<char>, bsnl: nat)
    requires |s| > 0 && s[0] == '/' && Pairs(s, '*')
    ensures var n := CommentSpan(s); Clean(s, NUL, bsnl) == Emit([' '], Clean(s[n..], NUL, bsnl + Newlines(s[..n])))
  {
    hide CommentSpan, Pairs;
  }

  /** The body of a comment to the end of the line, which is not spliced. */
  predicate LineComment(body: seq<char>) {
    && (forall i :: 0 <= i < |body| ==> body[i] != NL && body[i] != CR)
    && (|body| > 0 ==> body[|body| - 1] != '\\')
    && (|body| > 2 ==> !(body[|body| - 3] == '?' && body[|body| - 2] == '?' && body[|body| - 1] == '/'))
  }

  lemma NotSpliced(body: seq<char>, rest: seq<char>)
    requires LineComment(body) && |body| > 0 && (rest == [] || rest[0] == NL)
    ensures Splice(body + rest, 0) == 0
  {
    var s := body + rest;
    assert At(s, 0) == body[0];
    if body[0] == '\\' {
      assert |body| > 1;
      assert At(s, 1) == body[1] && body[1] != NL && body[1] != CR;
    } else if body[0] == '?' {
      MarksNotSpliced(body, rest);
    }
  }

  lemma MarksNotSpliced(body: seq<char>, rest: seq<char>)
    requires LineComment(body) && |body| > 0 && (rest == [] || rest[0] == NL) && body[0] == '?'
    ensures At(body + rest, 1) == '?' && At(body + rest, 2) == '/' ==>
      At(body + rest, 3) != NL && At(body + rest, 3) != CR
  {
    var s := body + rest;
    if |body| == 1 {
      assert At(s, 1) == At(rest, 0);
    } else if |body| == 2 {
      assert At(s, 2) == At(rest, 0);
    } else if |body| == 3 {
      assert At(s, 1) == body[1] && At(s, 2) == body[2];
    } else {
      assert At(s, 3) == body[3];
    }
  }

  lemma LineTail(body: seq<char>)
    requires LineComment(body) && |body| > 0
    ensures LineComment(body[1..])
  {
  }

  lemma {:induction false} LineEnds(body: seq<char>, rest: seq<char>)
    requires LineComment(body) && (rest == [] || rest[0] == NL)
    ensures LineEnd(body + rest) == |body|
    decreases |body|
  {
    hide Splice;
    var s := body + rest;
    if |body| == 0 {
      assert s == rest;
    } else {
      assert s[1..] == body[1..] + rest;
      assert s[0] == body[0] != NL;
      NotSpliced(body, rest);
      LineTail(body);
      LineEnds(body[1..], rest);
    }
  }

  lemma LineCommentSpans(open: Seam, body: seq<char>, rest: seq<char>)
    requires LineComment(body) && (rest == [] || rest[0] == NL)
    ensures var s := Mark('/', open, '/') + (body + rest);
      s[0] == '/' && Pairs(s, '/') && !Pairs(s, '*') && LineSpan(s) == |Mark('/', open, '/')| + |body|
  {
    hide Pairs, PairLength, Splice, Mark, LineComment, LineEnd;
    NoReturn(body, rest);
    MarkFound('/', open, '/', body + rest);
    LineEnds(body, rest);
  }

  lemma LineCommentLines(open: Seam, body: seq<char>)
    requires LineComment(body)
    ensures Newlines(Mark('/', open, '/') + body) == Lines(open)
  {
    hide Mark, Newlines;
    NewlinesJoin(Mark('/', open, '/'), body);
    MarkLines('/', open, '/');
    NoneIn(body);
  }

  lemma LineCommentIsSpace(open: Seam, body: seq<char>, rest: seq<char>, bsnl: nat)
    requires LineComment(body) && (rest == [] || rest[0] == NL)
    ensures Clean(Mark('/', open, '/') + body + rest, NUL, bsnl) == Emit([' '], Clean(rest, NUL, bsnl + Lines(open)))
  {
    hide Clean, Pairs, Splice, Mark, Newlines, LineSpan, LineComment, Emit;
    var m := Mark('/', open, '/');
    var s := m + body + rest;
    assert s == m + (body + rest);
    LineCommentSpans(open, body, rest);
    var span := |m| + |body|;
    assert s[span..] == rest && s[..span] == m + body;
    LineCommentLines(open, body);
    SlashLine(s, bsnl);
  }

  lemma NoReturn(body: seq<char>, rest: seq<char>)
    requires LineComment(body) && (rest == [] || rest[0] == NL)
    ensures body + rest == [] || (body + rest)[0] != CR
  {
  }

  lemma SlashLine(s: seq<char>, bsnl: nat)
    requires |s| > 0 && s[0] == '/' && Pairs(s, '/') && !Pairs(s, '*')
    ensures var n := LineSpan(s); Clean(s, NUL, bsnl) == Emit([' '], Clean(s[n..], NUL, bsnl + Newlines(s[..n])))
  {
    hide LineSpan, Pairs;
  }

  lemma {:induction false} NoneIn(s: seq<char>)
    requires forall i :: 0 <= i < |s| ==> s[i] != NL
    ensures Newlines(s) == 0
  {
    if |s| > 0 {
      NoneIn(s[..|s| - 1]);
    }
  }

  // ----- whole texts -----

  datatype Piece =
    | Word(c: char)                              // any other character
    | Quoted(q: char, body: seq<Unit>)
    | Block(open: Seam, comment: seq<char>, close: Seam)
    | ToLineEnd(open: Seam, comment: seq<char>)
    | Spliced(cr: bool)                          // a backslash before a newline
    | Return
    | EndOfLine
    | Three(c: char)                             // a trigraph, but not that of the backslash

  function Spelling(p: Piece): seq<char> {
    match p
    case Word(c) => [c]
    case Quoted(q, body) => [q] + Spelled(body) + [q]
    case Block(open, comment, close) => Mark('/', open, '*') + comment + Mark('*', close, '/')
    case ToLineEnd(open, comment) => Mark('/', open, '/') + comment
    case Spliced(cr) => if cr then ['\\', CR, NL] else ['\\', NL]
    case Return => [CR]
    case EndOfLine => [NL]
    case Three(c) => ['?', '?', c]
  }

  function Source(ps: seq<Piece>): seq<char> {
    if |ps| == 0 then [] else Spelling(ps[0]) + Source(ps[1..])
  }

  /** Each piece is one, and is not made into another by what follows it. */
  predicate Fits(p: Piece, after: seq<char>) {
    match p
    case Word(c) =>
      && c !in {'\\', '"', '\'', CR, NL}
      && (c == '?' ==> after == [] || after[0] != '?')
      && (c == '/' ==> after == [] || after[0] !in {'*', '/', '\\', '?'})
    case Quoted(q, body) => Literal(q, body)
    case Block(open, comment, close) =>
      && Comment(comment) && close != Broken(false, true)
      && (open == Broken(false, false) ==> comment == [] || comment[0] != CR)
      && (close == Broken(false, false) ==> after == [] || after[0] != CR)
    case ToLineEnd(_, comment) => LineComment(comment) && (after == [] || after[0] == NL)
    case Spliced(_) => true
    case Return => true
    case EndOfLine => true
    case Three(c) => c in TRIGRAPHS && c != '/'
  }

  predicate AllFit(ps: seq<Piece>) {
    |ps| == 0 || (Fits(ps[0], Source(ps[1..])) && AllFit(ps[1..]))
  }

  /** What a piece comes to, and the newlines owed after it: those that were
      spliced or in comments are put before the next one. */
  function Yields(p: Piece, owed: nat): Cleaned {
    match p
    case Word(c) => Cleaned([c], owed)
    case Quoted(q, body) => Cleaned([q] + Kept(body) + [q], owed + Splices(body))
    case Block(open, comment, close) => Cleaned([' '], owed + Lines(open) + Newlines(comment) + Lines(close))
    case ToLineEnd(open, _) => Cleaned([' '], owed + Lines(open))
    case Spliced(_) => Cleaned([], owed + 1)
    case Return => Cleaned([], owed)
    case EndOfLine => Cleaned(Repeat(NL, owed + 1), 0)
    case Three(c) => Cleaned([if c in TRIGRAPHS then TRIGRAPHS[c] else c], owed)
  }

  function Cleansed(ps: seq<Piece>, owed: nat): Cleaned {
    if |ps| == 0 then Cleaned([], owed)
    else
      var y := Yields(ps[0], owed);
      Emit(y.out, Cleansed(ps[1..], y.bsnl))
  }

  lemma EmitNone(r: Cleaned)
    ensures Emit([], r) == r
  {
    assert [] + r.out == r.out;
  }

  /** One piece, whatever text follows. */
  lemma PieceCleaned(p: Piece, after: seq<char>, owed: nat)
    requires Fits(p, after)
    ensures var y := Yields(p, owed); Clean(Spelling(p) + after, NUL, owed) == Emit(y.out, Clean(after, NUL, y.bsnl))
  {
    hide Clean;
    match p
    case Quoted(q, body) => LiteralCopied(q, body, after, owed);
    case Block(open, comment, close) => CommentIsSpace(open, comment, close, after, owed);
    case ToLineEnd(open, comment) => LineCommentIsSpace(open, comment, after, owed);
    case Three(c) => TrigraphReplaced(c, after, owed);
    case _ => ShortCleaned(p, after, owed);
  }

  lemma ShortCleaned(p: Piece, after: seq<char>, owed: nat)
    requires Fits(p, after) && (p.Word? || p.Spliced? || p.Return? || p.EndOfLine?)
    ensures var y := Yields(p, owed); Clean(Spelling(p) + after, NUL, owed) == Emit(y.out, Clean(after, NUL, y.bsnl))
  {
    var s := Spelling(p) + after;
    var n := |Spelling(p)|;
    assert s[n..] == after;
    assert s[0] == Spelling(p)[0];
    if after != [] { assert s[n] == after[0]; }
    if p.Spliced? { assert s[1] == Spelling(p)[1] && s[n - 1] == NL; }
    EmitNone(Clean(after, NUL, Yields(p, owed).bsnl));
  }

  /** A trigraph is read as the character it stands for, anywhere. */
  lemma TrigraphRead(c: char, after: seq<char>, q: char, owed: nat)
    requires c in TRIGRAPHS
    ensures Clean(['?', '?', c] + after, q, owed) == Clean([TRIGRAPHS[c]] + after, q, owed)
  {
    var s := ['?', '?', c] + after;
    TrigraphTable(c);
    assert s[0] == '?' && s[1] == '?' && s[2] == c && s[3..] == after;
  }

  lemma TrigraphReplaced(c: char, after: seq<char>, owed: nat)
    requires c in TRIGRAPHS && c != '/'
    ensures Clean(['?', '?', c] + after, NUL, owed) == Emit([TRIGRAPHS[c]], Clean(after, NUL, owed))
  {
    TrigraphRead(c, after, NUL, owed);
    var t := [TRIGRAPHS[c]] + after;
    assert t[1..] == after && t[0] in {'#', '[', ']', '^', '{', '|', '}', '~'};
  }

  /** Cleaning a text gives what its pieces stand for. */
  lemma {:induction false} CleansPieces(ps: seq<Piece>, owed: nat)
    requires AllFit(ps)
    ensures Clean(Source(ps), NUL, owed) == Cleansed(ps, owed)
    decreases |ps|
  {
    if |ps| > 0 {
      hide Clean, Spelling, Fits, Emit, Yields;
      PieceCleaned(ps[0], Source(ps[1..]), owed);
      CleansPieces(ps[1..], Yields(ps[0], owed).bsnl);
    }
  }
}
