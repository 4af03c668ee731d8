/**
 Arguments as people write them: each a row of pieces, bare or in quotes of either kind, with blanks
 between the arguments and perhaps a comment behind them. What is written comes back.
 */
module ArgumentPieces {
  import opened Sequences
  import opened ArgumentQuoting

  datatype Piece =
    | Bare(text: string)
    | InSingle(text: string)
    | InDouble(text: string)    // quotes and backslashes escaped
    | Verbatim(text: string)    // in double quotes too, with nothing that could be an escape

  predicate NoBlanksOrQuotes(text: string) {
    forall i :: 0 <= i < |text| ==> !IsBlank(text[i]) && text[i] != '\'' && text[i] != '"'
  }

  predicate CanBeWritten(p: Piece) {
    match p
    case Bare(text) => text != "" && NoBlanksOrQuotes(text)
    case InSingle(text) => Without(text, '\'')
    case InDouble(_) => true
    case Verbatim(text) => NothingEscaped(text)
  }

  function PieceText(p: Piece): string {
    match p
    case Bare(text) => text
    case InSingle(text) => "'" + text + "'"
    case InDouble(text) => "\"" + Escaped(text) + "\""
    case Verbatim(text) => "\"" + text + "\""
  }

  function PiecesText(ps: seq<Piece>): string {
    if ps == [] then "" else PiecesText(ps[..|ps| - 1]) + PieceText(ps[|ps| - 1])
  }

  /** The argument the pieces make: their texts, one after the other. */
  function Meaning(ps: seq<Piece>): string {
    if ps == [] then "" else Meaning(ps[..|ps| - 1]) + ps[|ps| - 1].text
  }

  predicate AllCanBeWritten(ps: seq<Piece>) {
    forall i :: 0 <= i < |ps| ==> CanBeWritten(ps[i])
  }

  /** The splitter gets from i to j, and when `watch` is set without meeting a comment. */
  predicate Reads(text: string, i: nat, s: Scan, j: nat, t: Scan, watch: bool) {
    && i <= |text| && j <= |text|
    && SplitFrom(text, i, s) == SplitFrom(text, j, t)
    && (watch ==> CommentFrom(text, i, s) == CommentFrom(text, j, t))
  }

  lemma ReadsOn(text: string, i: nat, s: Scan, j: nat, t: Scan, k: nat, u: Scan, watch: bool)
    requires Reads(text, i, s, j, t, watch) && Reads(text, j, t, k, u, watch)
    ensures Reads(text, i, s, k, u, watch)
  {}

  lemma ReadsStep(text: string, i: nat, s: Scan, watch: bool)
    requires i < |text| && (watch ==> !(BetweenTokens(s) && StartsComment(text[i])))
    ensures Reads(text, i, s, i + StepLength(text, i, s), SplitStep(text, i, s), watch)
  {}

  // ----- one piece

  /** Characters that are neither blanks nor quotes go into the token as they are. */
  lemma {:induction false} ReadsBare(text: string, i: nat, s: Scan, bare: string, watch: bool)
    requires s.quote.Outside? && NoBlanksOrQuotes(bare) && At(text, i, bare)
    requires watch ==> s.inToken || bare == "" || !StartsComment(bare[0])
    ensures bare != "" ==>
              Reads(text, i, s, i + |bare|, s.(current := s.current + bare, inToken := true), watch)
    decreases |bare|
  {
    hide Reads, SplitFrom, CommentFrom;
    if bare != "" {
      AtPoint(text, i, bare, 0);
      ReadsStep(text, i, s, watch);
      var t := Push(s, bare[0]).(inToken := true);
      assert bare == [bare[0]] + bare[1..];
      AtParts(text, i, [bare[0]], bare[1..]);
      if |bare| > 1 {
        ReadsBare(text, i + 1, t, bare[1..], watch);
        assert t.current + bare[1..] == s.current + bare;
        ReadsOn(text, i, s, i + 1, t, i + |bare|, s.(current := s.current + bare, inToken := true), watch);
      }
    }
  }

  /** Inside quotes, characters that neither end them nor escape go into the token as they are. */
  lemma {:induction false} ReadsInside(text: string, i: nat, s: Scan, within: string, watch: bool)
    requires At(text, i, within)
    requires (s.quote.Single? && Without(within, '\'')) || (s.quote.Double? && NothingEscaped(within))
    ensures Reads(text, i, s, i + |within|, s.(current := s.current + within), watch)
    decreases |within|
  {
    hide Reads, SplitFrom, CommentFrom;
    if within == "" {
      assert s.(current := s.current + within) == s;
      ReadsNothing(text, i, s, watch);
    } else {
      AtPoint(text, i, within, 0);
      if |within| > 1 {
        AtPoint(text, i, within, 1);
      }
      ReadsStep(text, i, s, watch);
      var t := Push(s, within[0]);
      assert within == [within[0]] + within[1..];
      AtParts(text, i, [within[0]], within[1..]);
      ReadsInside(text, i + 1, t, within[1..], watch);
      assert t.current + within[1..] == s.current + within;
      ReadsOn(text, i, s, i + 1, t, i + |within|, s.(current := s.current + within), watch);
    }
  }

  lemma ReadsNothing(text: string, i: nat, s: Scan, watch: bool)
    requires i <= |text|
    ensures Reads(text, i, s, i, s, watch)
  {}

  function QuoteChar(q: Quote): char {
    if q.Single? then '\'' else '"'
  }

  /** A quote character outside quotes opens them and keeps what the token has so far. */
  lemma ReadsOpening(text: string, i: nat, s: Scan, q: Quote, watch: bool)
    requires s.quote.Outside? && !q.Outside? && i < |text| && text[i] == QuoteChar(q)
    ensures Reads(text, i, s, i + 1, s.(quote := q, inToken := true), watch)
  {
    hide SplitFrom, CommentFrom;
    ReadsStep(text, i, s, watch);
  }

  lemma ReadsClosing(text: string, i: nat, s: Scan, watch: bool)
    requires !s.quote.Outside? && i < |text| && text[i] == QuoteChar(s.quote)
    ensures Reads(text, i, s, i + 1, s.(quote := Outside), watch)
  {
    hide SplitFrom, CommentFrom;
    ReadsStep(text, i, s, watch);
  }

  /** What stands between the quotes of a piece. */
  function Within(p: Piece): string {
    if p.InDouble? then Escaped(p.text) else p.text
  }

  function QuoteOf(p: Piece): Quote {
    match p
    case Bare(_) => Outside
    case InSingle(_) => Single
    case _ => Double
  }

  lemma ReadsWithin(text: string, i: nat, s: Scan, p: Piece, watch: bool)
    requires !p.Bare? && CanBeWritten(p) && s.quote == QuoteOf(p) && At(text, i, Within(p))
    ensures Reads(text, i, s, i + |Within(p)|, s.(current := s.current + p.text), watch)
  {
    hide SplitFrom, CommentFrom, Escaped;
    if p.InDouble? {
      ReadsEscaped(text, i, s, p.text);
    } else {
      ReadsInside(text, i, s, p.text, watch);
    }
  }

  /** A piece that opens a quote and does not close it. */
  function OpenText(p: Piece): string
    requires !p.Bare?
  {
    [QuoteChar(QuoteOf(p))] + Within(p)
  }

  lemma ReadsOpenPiece(text: string, i: nat, s: Scan, p: Piece, watch: bool)
    requires !p.Bare? && CanBeWritten(p) && s.quote.Outside? && At(text, i, OpenText(p))
    ensures Reads(text, i, s, i + |OpenText(p)|,
                  s.(current := s.current + p.text, inToken := true, quote := QuoteOf(p)), watch)
  {
    hide Reads, SplitFrom, CommentFrom, Escaped, CanBeWritten;
    var q := [QuoteChar(QuoteOf(p))];
    AtParts(text, i, q, Within(p));
    AtPoint(text, i, q, 0);
    var begun := s.(quote := QuoteOf(p), inToken := true);
    ReadsOpening(text, i, s, QuoteOf(p), watch);
    ReadsWithin(text, i + 1, begun, p, watch);
    ReadsOn(text, i, s, i + 1, begun, i + |OpenText(p)|, begun.(current := s.current + p.text), watch);
  }

  lemma ReadsQuotedPiece(text: string, i: nat, s: Scan, p: Piece, watch: bool)
    requires !p.Bare? && CanBeWritten(p) && s.quote.Outside? && At(text, i, PieceText(p))
    ensures Reads(text, i, s, i + |PieceText(p)|, s.(current := s.current + p.text, inToken := true), watch)
  {
    hide Reads, SplitFrom, CommentFrom, CanBeWritten, OpenText;
    var close := [QuoteChar(QuoteOf(p))];
    WholeIsOpenAndClose(p);
    AtParts(text, i, OpenText(p), close);
    var j := i + |OpenText(p)|;
    AtPoint(text, j, close, 0);
    var t := s.(current := s.current + p.text, inToken := true, quote := QuoteOf(p));
    ReadsOpenPiece(text, i, s, p, watch);
    ReadsClosing(text, j, t, watch);
    ReadsOn(text, i, s, j, t, j + 1, t.(quote := Outside), watch);
  }

  lemma WholeIsOpenAndClose(p: Piece)
    requires !p.Bare?
    ensures PieceText(p) == OpenText(p) + [QuoteChar(QuoteOf(p))]
  {
    hide Escaped;
  }

  predicate LooksLikeComment(ps: seq<Piece>) {
    ps != [] && ps[0].Bare? && ps[0].text != "" && StartsComment(ps[0].text[0])
  }

  lemma ReadsPiece(text: string, i: nat, s: Scan, p: Piece, watch: bool)
    requires CanBeWritten(p) && s.quote.Outside? && At(text, i, PieceText(p))
    requires watch ==> s.inToken || !LooksLikeComment([p])
    ensures Reads(text, i, s, i + |PieceText(p)|, s.(current := s.current + p.text, inToken := true), watch)
  {
    hide Reads, SplitFrom, CommentFrom, Escaped;
    if p.Bare? {
      ReadsBare(text, i, s, p.text, watch);
    } else {
      ReadsQuotedPiece(text, i, s, p, watch);
    }
  }

  /** A row of pieces is read as what they mean together, added to what the token has so far. */
  lemma {:induction false} ReadsPieces(text: string, i: nat, s: Scan, ps: seq<Piece>, watch: bool)
    requires AllCanBeWritten(ps) && s.quote.Outside? && At(text, i, PiecesText(ps))
    requires watch ==> s.inToken || !LooksLikeComment(ps)
    ensures Reads(text, i, s, i + |PiecesText(ps)|,
                  s.(current := s.current + Meaning(ps), inToken := s.inToken || ps != []), watch)
    decreases |ps|
  {
    hide Reads, SplitFrom, CommentFrom, CanBeWritten, PieceText;
    if ps == [] {
      assert s.current + Meaning(ps) == s.current;
      assert s.(current := s.current + Meaning(ps), inToken := s.inToken) == s;
      ReadsNothing(text, i, s, watch);
    } else {
      var front, last := ps[..|ps| - 1], ps[|ps| - 1];
      AtParts(text, i, PiecesText(front), PieceText(last));
      ReadsPieces(text, i, s, front, watch);
      var t := s.(current := s.current + Meaning(front), inToken := s.inToken || front != []);
      assert front == [] ==> ps == [last];
      var j := i + |PiecesText(front)|;
      ReadsPiece(text, j, t, last, watch);
      assert s.current + Meaning(front) + last.text == s.current + Meaning(ps);
      ReadsOn(text, i, s, j, t, i + |PiecesText(ps)|,
              s.(current := s.current + Meaning(ps), inToken := true), watch);
    }
  }

  // ----- a line of arguments

  /** An argument with the blanks before it. */
  datatype Word = Word(blanks: string, pieces: seq<Piece>)

  /** Every argument has a piece, and a blank stands between each two. */
  predicate WellSpaced(words: seq<Word>) {
    forall i :: 0 <= i < |words| ==>
      && AllBlank(words[i].blanks) && (i > 0 ==> words[i].blanks != "")
      && words[i].pieces != [] && AllCanBeWritten(words[i].pieces)
  }

  function Line(words: seq<Word>): string {
    if words == [] then ""
    else Line(words[..|words| - 1]) + words[|words| - 1].blanks + PiecesText(words[|words| - 1].pieces)
  }

  function Meanings(words: seq<Word>): seq<string> {
    seq(|words|, i requires 0 <= i < |words| => Meaning(words[i].pieces))
  }

  predicate NoneLooksLikeComment(words: seq<Word>) {
    forall i :: 0 <= i < |words| ==> !LooksLikeComment(words[i].pieces)
  }

  /** Where the splitter is behind these arguments: in the last of them. */
  function Behind(words: seq<Word>): Scan {
    if words == [] then START
    else Scan(Meanings(words[..|words| - 1]), Meaning(words[|words| - 1].pieces), true, Outside)
  }

  /** The token that ends when a blank comes. */
  function Ended(s: Scan): Scan {
    if s.inToken then Scan(s.arguments + [s.current], "", false, Outside) else s
  }

  lemma {:induction false} ReadsBlanks(text: string, i: nat, s: Scan, blanks: string, watch: bool)
    requires s.quote.Outside? && AllBlank(blanks) && At(text, i, blanks)
    ensures Reads(text, i, s, i + |blanks|, if blanks == "" then s else Ended(s), watch)
    decreases |blanks|
  {
    hide Reads, SplitFrom, CommentFrom;
    if blanks == "" {
      ReadsNothing(text, i, s, watch);
    } else {
      AtPoint(text, i, blanks, 0);
      ReadsStep(text, i, s, watch);
      assert blanks == [blanks[0]] + blanks[1..];
      AtParts(text, i, [blanks[0]], blanks[1..]);
      ReadsBlanks(text, i + 1, Ended(s), blanks[1..], watch);
      ReadsOn(text, i, s, i + 1, Ended(s), i + |blanks|, Ended(s), watch);
    }
  }

  lemma EndedBehind(words: seq<Word>, blanks: string)
    requires words != [] ==> blanks != ""
    ensures (if blanks == "" then Behind(words) else Ended(Behind(words))) == Scan(Meanings(words), "", false, Outside)
  {
    if words != [] {
      var front := words[..|words| - 1];
      assert Meanings(front) + [Meaning(words[|words| - 1].pieces)] == Meanings(words);
    } else {
      assert Meanings(words) == [];
    }
  }

  lemma {:induction false} ReadsLine(text: string, words: seq<Word>, watch: bool)
    requires WellSpaced(words) && Line(words) <= text && (watch ==> NoneLooksLikeComment(words))
    ensures Reads(text, 0, START, |Line(words)|, Behind(words), watch)
    decreases |words|
  {
    hide Reads, SplitFrom, CommentFrom, PiecesText, Meaning, AllBlank, AllCanBeWritten, LooksLikeComment;
    if words == [] {
      ReadsNothing(text, 0, START, watch);
    } else {
      var front, last := words[..|words| - 1], words[|words| - 1];
      var f := Line(front);
      assert Line(words) == f + (last.blanks + PiecesText(last.pieces));
      StartsAt(text, f + (last.blanks + PiecesText(last.pieces)));
      AtParts(text, 0, f, last.blanks + PiecesText(last.pieces));
      AtParts(text, |f|, last.blanks, PiecesText(last.pieces));
      ReadsLine(text, front, watch);
      ReadsBlanks(text, |f|, Behind(front), last.blanks, watch);
      EndedBehind(front, last.blanks);
      var t := Scan(Meanings(front), "", false, Outside);
      ReadsOn(text, 0, START, |f|, Behind(front), |f| + |last.blanks|, t, watch);
      ReadsPieces(text, |f| + |last.blanks|, t, last.pieces, watch);
      assert "" + Meaning(last.pieces) == Meaning(last.pieces);
      ReadsOn(text, 0, START, |f| + |last.blanks|, t, |Line(words)|, Behind(words), watch);
    }
  }

  // ----- what is written comes back

  lemma ReadsWhole(text: string, words: seq<Word>, trail: string, watch: bool)
    requires WellSpaced(words) && AllBlank(trail) && Line(words) + trail <= text
    requires watch ==> NoneLooksLikeComment(words)
    ensures Reads(text, 0, START, |Line(words)| + |trail|,
                  if trail == "" then Behind(words) else Ended(Behind(words)), watch)
  {
    hide Reads, SplitFrom, CommentFrom, Line, WellSpaced, Behind;
    StartsAt(text, Line(words) + trail);
    AtParts(text, 0, Line(words), trail);
    AtStart(text, Line(words));
    ReadsLine(text, words, watch);
    BehindIsOutside(words);
    ReadsBlanks(text, |Line(words)|, Behind(words), trail, watch);
    ReadsOn(text, 0, START, |Line(words)|, Behind(words), |Line(words)| + |trail|,
            if trail == "" then Behind(words) else Ended(Behind(words)), watch);
  }

  lemma BehindIsOutside(words: seq<Word>)
    ensures Behind(words).quote.Outside?
  {}

  /** Arguments in any pieces, with any blanks before, between and behind them, are split back exactly. */
  lemma LineComesBack(words: seq<Word>, trail: string)
    requires WellSpaced(words) && AllBlank(trail)
    ensures Split(Line(words) + trail) == Arguments(Meanings(words))
  {
    hide SplitFrom, Line, WellSpaced;
    var text := Line(words) + trail;
    ReadsWhole(text, words, trail, false);
    assert |text| == |Line(words)| + |trail|;
    EndsThere(text, if trail == "" then Behind(words) else Ended(Behind(words)));
    FinishedBehind(words, trail);
  }

  lemma FinishedBehind(words: seq<Word>, trail: string)
    ensures Finish(if trail == "" then Behind(words) else Ended(Behind(words))) == Arguments(Meanings(words))
  {
    if words == [] {
      assert Meanings(words) == [];
    } else {
      EndedBehind(words, " ");
    }
  }

  /**
   A comment behind them is cut off and nothing else is, so that the rest still splits into exactly them.
   Nothing in quotes is taken for a comment, nor a comment character within a bare argument.
   */
  lemma CommentIsCut(words: seq<Word>, trail: string, comment: string)
    requires WellSpaced(words) && AllBlank(trail) && NoneLooksLikeComment(words)
    requires comment == "" || (StartsComment(comment[0]) && (words == [] || trail != ""))
    ensures Strip(Line(words) + trail + comment) == Line(words) + trail
    ensures Split(Strip(Line(words) + trail + comment)) == Arguments(Meanings(words))
  {
    hide SplitFrom, Line, WellSpaced, NoneLooksLikeComment;
    var kept := Line(words) + trail;
    var text := kept + comment;
    ReadsWhole(text, words, trail, true);
    var s := if trail == "" then Behind(words) else Ended(Behind(words));
    CutIsComment(text, 0, START);
    CommentHere(text, |kept|, s, comment);
    assert text[..|kept|] == kept;
    LineComesBack(words, trail);
  }

  lemma CommentHere(text: string, i: nat, s: Scan, comment: string)
    requires i <= |text| && text[i..] == comment && (comment != "" ==> StartsComment(comment[0]) && BetweenTokens(s))
    ensures CommentFrom(text, i, s) == i
  {
    if comment != "" {
      assert text[i] == text[i..][0];
    }
  }

  // ----- a quote that is not closed

  /** Pieces and an open quote, read from outside quotes on to the end. */
  lemma ReadsToOpenEnd(text: string, i: nat, s: Scan, pieces: seq<Piece>, open: Piece) returns (t: Scan)
    requires s.quote.Outside? && AllCanBeWritten(pieces) && !open.Bare? && CanBeWritten(open)
    requires i <= |text| && text[i..] == PiecesText(pieces) + OpenText(open)
    ensures Reads(text, i, s, |text|, t, false) && !t.quote.Outside?
  {
    hide Reads, SplitFrom, CommentFrom, PiecesText, Meaning, AllCanBeWritten, CanBeWritten, OpenText;
    var j := i + |PiecesText(pieces)|;
    assert text[i..i + |text[i..]|] == text[i..];
    AtParts(text, i, PiecesText(pieces), OpenText(open));
    ReadsPieces(text, i, s, pieces, false);
    var u := s.(current := s.current + Meaning(pieces), inToken := s.inToken || pieces != []);
    ReadsOpenPiece(text, j, u, open, false);
    t := u.(current := u.current + open.text, inToken := true, quote := QuoteOf(open));
    ReadsOn(text, i, s, j, u, |text|, t, false);
  }

  /** Wherever a quote is still open at the end, there are no arguments. */
  lemma OpenQuoteIsRefused(words: seq<Word>, blanks: string, pieces: seq<Piece>, open: Piece)
    requires WellSpaced(words) && AllBlank(blanks) && AllCanBeWritten(pieces)
    requires !open.Bare? && CanBeWritten(open)
    ensures Split(Line(words) + blanks + PiecesText(pieces) + OpenText(open)) == UnterminatedQuote
  {
    hide Reads, SplitFrom, Line, WellSpaced, PiecesText, AllCanBeWritten, CanBeWritten, OpenText, Behind;
    var head, tail := Line(words) + blanks, PiecesText(pieces) + OpenText(open);
    var text := Line(words) + blanks + PiecesText(pieces) + OpenText(open);
    assert text == head + tail;
    ReadsWhole(text, words, blanks, false);
    BehindIsOutside(words);
    var s := if blanks == "" then Behind(words) else Ended(Behind(words));
    var t := ReadsToOpenEnd(text, |head|, s, pieces, open);
    ReadsOn(text, 0, START, |head|, s, |text|, t, false);
    EndsThere(text, t);
  }

  lemma EndsThere(text: string, s: Scan)
    requires Reads(text, 0, START, |text|, s, false)
    ensures SplitFrom(text, 0, START) == s
  {}
}
