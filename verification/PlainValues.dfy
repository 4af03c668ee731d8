/**
 Values that are not split like a shell command: how a comment is cut off one, how blanks are
 trimmed and how quotes around the whole of it are taken away. A quoted value comes back.
 */
module PlainValues {
  import opened Sequences
  import opened ArgumentQuoting

  // ----- comments

  predicate CommentAt(text: string, i: nat)
    requires i < |text|
  {
    StartsComment(text[i]) && (i == 0 || IsBlank(text[i - 1]))
  }

  /** Where the first comment at or after i begins; the end of the text when there is none. */
  function CommentFrom(text: string, i: nat): (k: nat)
    requires i <= |text|
    ensures i <= k <= |text| && (k < |text| ==> CommentAt(text, k))
    ensures forall j :: i <= j < k ==> !CommentAt(text, j)
    decreases |text| - i
  {
    if i == |text| || CommentAt(text, i) then i else CommentFrom(text, i + 1)
  }

  method CutAtComment(value: string, from: nat) returns (r: string)
    requires from <= |value|
    ensures r == value[..CommentFrom(value, from)]
  {
    for i := from to |value|
      invariant CommentFrom(value, from) == CommentFrom(value, i)
    {
      if StartsComment(value[i]) && (i == 0 || IsBlank(value[i - 1])) {
        return value[..i];
      }
    }
    assert value[..|value|] == value;
    return value;
  }

  /** The first character from i on that is not blank. */
  function BlanksFrom(text: string, i: nat): (k: nat)
    requires i <= |text|
    ensures i <= k <= |text| && (k < |text| ==> !IsBlank(text[k]))
    ensures forall j :: i <= j < k ==> IsBlank(text[j])
    decreases |text| - i
  {
    if i < |text| && IsBlank(text[i]) then BlanksFrom(text, i + 1) else i
  }

  /** Where the quote that was opened is closed; the end of the text when it is not. */
  function ClosingFrom(text: string, i: nat, opening: char): (k: nat)
    requires i <= |text|
    ensures i <= k <= |text| && (k < |text| ==> text[k] == opening)
    decreases |text| - i
  {
    if i == |text| || text[i] == opening then i
    else ClosingFrom(text, i + (if opening == '"' && Escapes(text, i) then 2 else 1), opening)
  }

  predicate IsQuote(c: char) {
    c == '"' || c == '\''
  }

  /** Where a whole value is cut. */
  function CutPoint(value: string): (k: nat)
    ensures k <= |value|
  {
    var first := BlanksFrom(value, 0);
    if first == |value| || !IsQuote(value[first]) then CommentFrom(value, 0)
    else
      var closing := ClosingFrom(value, first + 1, value[first]);
      if closing < |value| then CommentFrom(value, closing + 1) else |value|
  }

  method StripWhole(value: string) returns (r: string)
    ensures r == value[..CutPoint(value)]
  {
    var first := 0;
    while first < |value| && IsBlank(value[first])
      invariant first <= |value| && BlanksFrom(value, 0) == BlanksFrom(value, first)
    {
      first := first + 1;
    }
    if first == |value| || (value[first] != '"' && value[first] != '\'') {
      r := CutAtComment(value, 0);
      return;
    }
    var opening := value[first];
    var i := first + 1;
    while i < |value| && value[i] != opening
      invariant i <= |value| && ClosingFrom(value, first + 1, opening) == ClosingFrom(value, i, opening)
      decreases |value| - i
    {
      i := i + if opening == '"' && Escapes(value, i) then 2 else 1;
    }
    if i < |value| {
      r := CutAtComment(value, i + 1);
    } else {
      r := value;
      assert value[..|value|] == value;
    }
  }

  // ----- blanks

  /** The text without the blanks around it. */
  function Trimmed(text: string): string
    decreases |text|
  {
    if text != "" && IsBlank(text[0]) then Trimmed(text[1..])
    else if text != "" && IsBlank(text[|text| - 1]) then Trimmed(text[..|text| - 1])
    else text
  }

  method Trim(text: string) returns (r: string)
    ensures r == Trimmed(text)
  {
    r := text;
    while r != "" && IsBlank(r[0])
      invariant Trimmed(r) == Trimmed(text)
      decreases |r|
    {
      r := r[1..];
    }
    while r != "" && IsBlank(r[|r| - 1])
      invariant Trimmed(r) == Trimmed(text)
      invariant r != "" ==> !IsBlank(r[0])
      decreases |r|
    {
      r := r[..|r| - 1];
    }
  }

  // ----- quotes around the whole value

  /** The text from i on, with backslashes before quotes and backslashes taken away. */
  function Unescaped(text: string, i: nat): string
    requires i <= |text|
    decreases |text| - i
  {
    if i == |text| then ""
    else if Escapes(text, i) then [text[i + 1]] + Unescaped(text, i + 2)
    else [text[i]] + Unescaped(text, i + 1)
  }

  predicate Wrapped(value: string, quote: char) {
    |value| >= 2 && value[0] == quote && value[|value| - 1] == quote
  }

  function Unquoted(value: string): string {
    if Wrapped(value, '\'') then value[1..|value| - 1]
    else if Wrapped(value, '"') then Unescaped(value[1..|value| - 1], 0)
    else value
  }

  method Unquote(value: string) returns (r: string)
    ensures r == Unquoted(value)
  {
    if |value| >= 2 && value[0] == '\'' && value[|value| - 1] == '\'' {
      return value[1..|value| - 1];
    }
    if |value| >= 2 && value[0] == '"' && value[|value| - 1] == '"' {
      var inner := value[1..|value| - 1];
      var text := "";
      var i := 0;
      while i < |inner|
        invariant i <= |inner| && text + Unescaped(inner, i) == Unescaped(inner, 0)
        decreases |inner| - i
      {
        if Escapes(inner, i) {
          assert text + ([inner[i + 1]] + Unescaped(inner, i + 2)) == (text + [inner[i + 1]]) + Unescaped(inner, i + 2);
          text := text + [inner[i + 1]];
          i := i + 2;
        } else {
          assert text + ([inner[i]] + Unescaped(inner, i + 1)) == (text + [inner[i]]) + Unescaped(inner, i + 1);
          text := text + [inner[i]];
          i := i + 1;
        }
      }
      return text;
    }
    return value;
  }

  // ----- what is written comes back

  /** What the reader makes of everything after the equals sign. */
  function Reading(raw: string): string {
    Unquoted(Trimmed(raw[..CutPoint(raw)]))
  }

  /** What may follow a value: blanks, and after at least one of them a comment. */
  predicate MayFollow(blanks: string, comment: string) {
    AllBlank(blanks) && (comment == "" || (blanks != "" && StartsComment(comment[0])))
  }

  lemma {:induction false} EscapedReads(text: string, i: nat, value: string, opening: char)
    requires At(text, i, Escaped(value)) && opening == '"'
    ensures ClosingFrom(text, i, opening) == ClosingFrom(text, i + |Escaped(value)|, opening)
    decreases |value|
  {
    if value != "" {
      var e, rest := EscapedChar(value[0]), value[1..];
      AtParts(text, i, e, Escaped(rest));
      AtPoint(text, i, e, 0);
      if |e| == 2 {
        AtPoint(text, i, e, 1);
      }
      EscapedReads(text, i + |e|, rest, opening);
    }
  }

  lemma {:induction false} UnescapedIs(text: string, i: nat, value: string)
    requires i <= |text| && text[i..] == Escaped(value)
    ensures Unescaped(text, i) == value
    decreases |value|
  {
    if value != "" {
      var e, rest := EscapedChar(value[0]), value[1..];
      assert text[i..] == e + Escaped(rest);
      assert text[i] == e[0];
      if |e| == 2 {
        assert text[i + 1] == text[i..][1] == e[1];
      }
      assert text[i + |e|..] == text[i..][|e|..] == Escaped(rest);
      UnescapedIs(text, i + |e|, rest);
      assert value == [value[0]] + rest;
    }
  }

  lemma {:induction false} TrimsAround(before: string, core: string, after: string)
    requires AllBlank(before) && AllBlank(after)
    requires core != "" && !IsBlank(core[0]) && !IsBlank(core[|core| - 1])
    ensures Trimmed(before + core + after) == core
    decreases |before| + |after|
  {
    var text := before + core + after;
    if before != "" {
      assert text[1..] == before[1..] + core + after;
      TrimsAround(before[1..], core, after);
    } else if after != "" {
      assert text[0] == core[0];
      assert text[..|text| - 1] == before + core + after[..|after| - 1];
      TrimsAround(before, core, after[..|after| - 1]);
    } else {
      assert text == core;
    }
  }

  /** Behind the value only the comment is cut off. */
  lemma CutsAfter(text: string, i: nat, blanks: string, comment: string)
    requires i <= |text| && text[i..] == blanks + comment && MayFollow(blanks, comment)
    requires i > 0 && !IsBlank(text[i - 1])
    ensures CommentFrom(text, i) == i + |blanks|
  {
    var k := i + |blanks|;
    forall j | i <= j < k
      ensures !CommentAt(text, j)
    {
      assert text[j] == text[i..][j - i] == blanks[j - i];
      assert IsBlank(blanks[j - i]);
    }
    if comment != "" {
      assert text[k] == text[i..][|blanks|] == comment[0];
      assert text[k - 1] == text[i..][|blanks| - 1] == blanks[|blanks| - 1];
      assert CommentAt(text, k);
    }
  }

  lemma BlanksBefore(before: string, rest: string)
    requires AllBlank(before) && rest != "" && !IsBlank(rest[0])
    ensures BlanksFrom(before + rest, 0) == |before|
  {
    var text := before + rest;
    assert forall j :: 0 <= j < |before| ==> text[j] == before[j];
    assert text[|before|] == rest[0];
  }

  /** A quoted value is cut behind the blanks after it. */
  lemma CutsQuoted(raw: string, before: string, value: string, blanks: string, comment: string)
    requires AllBlank(before) && MayFollow(blanks, comment)
    requires raw == before + (InQuotes(value) + (blanks + comment))
    ensures CutPoint(raw) == |before| + |InQuotes(value)| + |blanks|
  {
    hide MayFollow, AllBlank, Escaped, CommentFrom;
    var e, open := Escaped(value), |before|;
    var closing := open + 1 + |e|;
    assert InQuotes(value)[0] == '"';
    BlanksBefore(before, InQuotes(value) + (blanks + comment));
    assert raw[open] == '"';
    assert raw[open + 1..closing] == e;
    EscapedReads(raw, open + 1, value, '"');
    assert raw[closing] == '"';
    assert raw[closing + 1..] == blanks + comment;
    CutsAfter(raw, closing + 1, blanks, comment);
  }

  lemma QuotedUnwraps(value: string)
    ensures Unquoted(InQuotes(value)) == value
  {
    hide Escaped;
    var e := Escaped(value);
    assert InQuotes(value)[1..|InQuotes(value)| - 1] == e;
    assert InQuotes(value)[0] == '"' && InQuotes(value)[|InQuotes(value)| - 1] == '"';
    assert e[0..] == e;
    UnescapedIs(e, 0, value);
  }

  /**
   A value in double quotes, with its quotes and backslashes escaped, comes back exactly, whatever it
   contains and whatever blanks and comment stand around it.
   */
  lemma QuotedComesBack(before: string, value: string, blanks: string, comment: string)
    requires AllBlank(before) && MayFollow(blanks, comment)
    ensures Reading(before + InQuotes(value) + (blanks + comment)) == value
  {
    hide Trimmed, Unquoted, CutPoint, Escaped;
    var q, raw := InQuotes(value), before + InQuotes(value) + (blanks + comment);
    assert raw == before + (q + (blanks + comment));
    CutsQuoted(raw, before, value, blanks, comment);
    assert raw[..|before| + |q| + |blanks|] == before + q + blanks;
    assert q[0] == '"' && q[|q| - 1] == '"';
    TrimsAround(before, q, blanks);
    QuotedUnwraps(value);
  }

  /** A text that needs no quotes: it begins with none, has no blank at either end and holds no comment. */
  predicate Bare(value: string) {
    && value != "" && !IsBlank(value[0]) && !IsBlank(value[|value| - 1])
    && !IsQuote(value[0]) && !StartsComment(value[0])
    && forall i :: 0 < i < |value| && StartsComment(value[i]) ==> !IsBlank(value[i - 1])
  }

  /** Such a text comes back as it stands, quotes inside it included. */
  lemma BareComesBack(before: string, value: string, blanks: string, comment: string)
    requires AllBlank(before) && Bare(value) && MayFollow(blanks, comment)
    ensures Reading(before + value + (blanks + comment)) == value
  {
    hide CommentFrom, CommentAt, Trimmed, AllBlank, BlanksFrom, ClosingFrom;
    var raw := before + value + (blanks + comment);
    assert raw == before + (value + (blanks + comment));
    BlanksBefore(before, value + (blanks + comment));
    var end := |before| + |value|;
    assert raw[end..] == blanks + comment;
    assert raw[end - 1] == value[|value| - 1];
    CutsAfter(raw, end, blanks, comment);
    NoCommentBefore(raw, before, value, blanks + comment);
    assert raw[..end + |blanks|] == before + value + blanks;
    TrimsAround(before, value, blanks);
  }

  lemma NoCommentBefore(raw: string, before: string, value: string, rest: string)
    requires raw == before + value + rest && AllBlank(before) && Bare(value)
    ensures CommentFrom(raw, 0) == CommentFrom(raw, |before| + |value|)
  {
    hide CommentFrom, IsBlank, CommentAt;
    forall j | 0 <= j < |before| + |value|
      ensures !CommentAt(raw, j)
    {
      NoCommentThere(raw, before, value, j);
    }
    Skips(raw, 0, |before| + |value|);
  }

  lemma NoCommentThere(raw: string, before: string, value: string, j: nat)
    requires |before| + |value| <= |raw| && raw[..|before| + |value|] == before + value && j < |before| + |value|
    requires AllBlank(before) && Bare(value)
    ensures !CommentAt(raw, j)
  {
    var k := j - |before|;
    assert raw[j] == (before + value)[j];
    if k >= 0 {
      assert !CommentAt(value, k);
    }
    if k > 0 {
      assert raw[j - 1] == (before + value)[j - 1] == value[k - 1];
    }
  }

  lemma {:induction false} Skips(text: string, i: nat, k: nat)
    requires i <= k <= |text| && forall j :: i <= j < k ==> !CommentAt(text, j)
    ensures CommentFrom(text, i) == CommentFrom(text, k)
    decreases k - i
  {
    if i < k {
      Skips(text, i + 1, k);
    }
  }

  // ----- single quotes, and quotes that are never closed

  /** Inside single quotes nothing is escaped. */
  lemma {:induction false} SingleCloses(text: string, i: nat, value: string)
    requires At(text, i, value) && Without(value, '\'')
    ensures ClosingFrom(text, i, '\'') == ClosingFrom(text, i + |value|, '\'')
    decreases |value|
  {
    if value != "" {
      AtPoint(text, i, value, 0);
      assert value == [value[0]] + value[1..];
      AtParts(text, i, [value[0]], value[1..]);
      SingleCloses(text, i + 1, value[1..]);
    }
  }

  /** A value without single quotes comes back from them as it stands, backslashes included. */
  lemma SingleQuotedComesBack(before: string, value: string, blanks: string, comment: string)
    requires AllBlank(before) && MayFollow(blanks, comment) && Without(value, '\'')
    ensures Reading(before + ("'" + value + "'") + (blanks + comment)) == value
  {
    hide Trimmed, CutPoint;
    var q, raw := "'" + value + "'", before + ("'" + value + "'") + (blanks + comment);
    assert raw == before + (q + (blanks + comment));
    CutsSingle(raw, before, value, blanks, comment);
    assert raw[..|before| + |q| + |blanks|] == before + q + blanks;
    assert q[0] == '\'' && q[|q| - 1] == '\'' && q[1..|q| - 1] == value;
    TrimsAround(before, q, blanks);
  }

  lemma CutsSingle(raw: string, before: string, value: string, blanks: string, comment: string)
    requires AllBlank(before) && MayFollow(blanks, comment) && Without(value, '\'')
    requires raw == before + (("'" + value + "'") + (blanks + comment))
    ensures CutPoint(raw) == |before| + |value| + 2 + |blanks|
  {
    hide MayFollow, AllBlank, CommentFrom, Without;
    var q, open := "'" + value + "'", |before|;
    var closing := open + 1 + |value|;
    assert q[0] == '\'';
    BlanksBefore(before, q + (blanks + comment));
    assert raw[open] == '\'' && raw[open + 1..closing] == value;
    SingleCloses(raw, open + 1, value);
    assert raw[closing] == '\'';
    assert raw[closing + 1..] == blanks + comment;
    CutsAfter(raw, closing + 1, blanks, comment);
  }

  lemma {:induction false} PlainCloses(text: string, i: nat, value: string)
    requires At(text, i, value) && NothingEscaped(value)
    ensures ClosingFrom(text, i, '"') == ClosingFrom(text, i + |value|, '"')
    decreases |value|
  {
    if value != "" {
      AtPoint(text, i, value, 0);
      if |value| > 1 {
        AtPoint(text, i, value, 1);
      }
      assert value == [value[0]] + value[1..];
      AtParts(text, i, [value[0]], value[1..]);
      PlainCloses(text, i + 1, value[1..]);
    }
  }

  lemma {:induction false} PlainUnescapes(text: string, i: nat)
    requires i <= |text| && NothingEscaped(text)
    ensures Unescaped(text, i) == text[i..]
    decreases |text| - i
  {
    if i < |text| {
      PlainUnescapes(text, i + 1);
    }
  }

  /** Backslashes in double quotes that escape nothing stay, as in the path of a file. */
  lemma PlainComesBack(value: string)
    requires NothingEscaped(value)
    ensures Reading("\"" + value + "\"") == value
  {
    hide Trimmed;
    var q := "\"" + value + "\"";
    assert q[1..1 + |value|] == value;
    PlainCloses(q, 1, value);
    assert BlanksFrom(q, 0) == 0;
    assert q[1 + |value|] == '"';
    assert q[..|q|] == q && "" + q + "" == q;
    TrimsAround("", q, "");
    assert q[1..|q| - 1] == value && value[0..] == value;
    PlainUnescapes(value, 0);
  }

  /** A quote that is never closed protects everything behind it: the value is not cut. */
  lemma OpenQuoteIsKept(before: string, value: string)
    requires AllBlank(before) && Without(value, '\'')
    ensures CutPoint(before + ("'" + value)) == |before| + 1 + |value|
  {
    hide AllBlank, CommentFrom;
    var raw := before + ("'" + value);
    BlanksBefore(before, "'" + value);
    assert raw[|before|] == '\'';
    assert raw[|before| + 1..] == value && raw[|before| + 1..|before| + 1 + |value|] == value;
    SingleCloses(raw, |before| + 1, value);
  }
}
