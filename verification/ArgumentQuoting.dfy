/**
 Two loops over the same value: one cuts a comment off it, the other splits it into arguments.
 They treat backslashes differently and still agree on what is quoted.
 */
module ArgumentQuoting {
  import opened Sequences

  predicate IsBlank(c: char) {
    c == ' ' || c == '\t' || c == '\r' || c == '\n' || c == '\U{0C}' || c == '\U{0B}'
  }

  predicate StartsComment(c: char) {
    c == '#' || c == ';'
  }

  predicate AllBlank(text: string) {
    forall i :: 0 <= i < |text| ==> IsBlank(text[i])
  }

  predicate Without(text: string, c: char) {
    forall i :: 0 <= i < |text| ==> text[i] != c
  }

  /** Text for double quotes in which every backslash is followed by a character that it does not escape. */
  predicate NothingEscaped(text: string) {
    Without(text, '"') && forall i :: 0 <= i < |text| && text[i] == '\\' ==> i + 1 < |text| && text[i + 1] != '\\'
  }

  datatype Quote = Outside | Single | Double

  // ----- the splitter

  /** Where the splitter is: the arguments so far, the one it is in, and the quote it is in. */
  datatype Scan = Scan(arguments: seq<string>, current: string, inToken: bool, quote: Quote)

  const START := Scan([], "", false, Outside)

  /** A backslash in double quotes that the splitter takes away: the next character is kept as it is. */
  predicate Escapes(text: string, i: nat)
    requires i < |text|
  {
    text[i] == '\\' && i + 1 < |text| && (text[i + 1] == '"' || text[i + 1] == '\\')
  }

  function StepLength(text: string, i: nat, s: Scan): (n: nat)
    requires i < |text|
    ensures 1 <= n && i + n <= |text|
  {
    if s.quote.Double? && Escapes(text, i) then 2 else 1
  }

  function Push(s: Scan, c: char): Scan {
    s.(current := s.current + [c])
  }

  /** What the splitter makes of the character at i. */
  function SplitStep(text: string, i: nat, s: Scan): Scan
    requires i < |text|
  {
    var c := text[i];
    match s.quote
    case Single => if c == '\'' then s.(quote := Outside) else Push(s, c)
    case Double =>
      if Escapes(text, i) then Push(s, text[i + 1])
      else if c == '"' then s.(quote := Outside)
      else Push(s, c)
    case Outside =>
      if IsBlank(c) then
        if s.inToken then Scan(s.arguments + [s.current], "", false, Outside) else s
      else if c == '\'' then
        s.(quote := Single, inToken := true)
      else if c == '"' then
        s.(quote := Double, inToken := true)
      else
        Push(s, c).(inToken := true)
  }

  /** Where the splitter is at the end of the text. */
  function SplitFrom(text: string, i: nat, s: Scan): Scan
    requires i <= |text|
    decreases |text| - i
  {
    if i == |text| then s else SplitFrom(text, i + StepLength(text, i, s), SplitStep(text, i, s))
  }

  datatype SplitResult = Arguments(arguments: seq<string>) | UnterminatedQuote

  function Finish(s: Scan): SplitResult {
    if !s.quote.Outside? then UnterminatedQuote
    else if s.inToken then Arguments(s.arguments + [s.current])
    else Arguments(s.arguments)
  }

  function Split(text: string): SplitResult {
    Finish(SplitFrom(text, 0, START))
  }

  method SplitArguments(text: string) returns (r: SplitResult)
    ensures r == Split(text)
  {
    var arguments: seq<string> := [];
    var current := "";
    var inToken := false;
    var quote := Outside;
    var i := 0;
    while i < |text|
      invariant i <= |text|
      invariant SplitFrom(text, i, Scan(arguments, current, inToken, quote)) == SplitFrom(text, 0, START)
    {
      var c := text[i];
      if quote == Single {
        if c == '\'' {
          quote := Outside;
        } else {
          current := current + [c];
        }
      } else if quote == Double {
        if c == '\\' && i + 1 < |text| && (text[i + 1] == '"' || text[i + 1] == '\\') {
          current := current + [text[i + 1]];
          i := i + 1;
        } else if c == '"' {
          quote := Outside;
        } else {
          current := current + [c];
        }
      } else if IsBlank(c) {
        if inToken {
          arguments := arguments + [current];
          current := "";
          inToken := false;
        }
      } else {
        if c == '\'' {
          quote := Single;
        } else if c == '"' {
          quote := Double;
        } else {
          current := current + [c];
        }
        inToken := true;
      }
      i := i + 1;
    }
    if quote != Outside {
      return UnterminatedQuote;
    }
    if inToken {
      arguments := arguments + [current];
    }
    r := Arguments(arguments);
  }

  // ----- the comment stripper

  /** The position the stripper cuts at; the length of the value when it cuts nothing. */
  function CutFrom(value: string, i: nat, quote: Quote): (n: nat)
    requires i <= |value|
    ensures i <= n <= |value|
    decreases |value| - i
  {
    if i == |value| then
      i
    else
      var c := value[i];
      match quote
      case Single => CutFrom(value, i + 1, if c == '\'' then Outside else quote)
      case Double =>
        if c == '"' then CutFrom(value, i + 1, Outside)
        else if c == '\\' && i + 1 < |value| then CutFrom(value, i + 2, quote)
        else CutFrom(value, i + 1, quote)
      case Outside =>
        if c == '"' then CutFrom(value, i + 1, Double)
        else if c == '\'' then CutFrom(value, i + 1, Single)
        else if StartsComment(c) && (i == 0 || IsBlank(value[i - 1])) then i
        else CutFrom(value, i + 1, quote)
  }

  function Strip(value: string): (kept: string)
    ensures kept <= value
  {
    value[..CutFrom(value, 0, Outside)]
  }

  /** The form for values that are split like a shell command. */
  method StripInlineComment(value: string) returns (kept: string)
    ensures kept == Strip(value)
  {
    var quote := Outside;
    var i := 0;
    while i < |value|
      invariant i <= |value|
      invariant CutFrom(value, i, quote) == CutFrom(value, 0, Outside)
    {
      var c := value[i];
      if quote != Outside {
        if c == (if quote == Double then '"' else '\'') {
          quote := Outside;
        } else if quote == Double && c == '\\' && i + 1 < |value| {
          i := i + 1;
        }
      } else if c == '"' {
        quote := Double;
      } else if c == '\'' {
        quote := Single;
      } else if StartsComment(c) && (i == 0 || IsBlank(value[i - 1])) {
        return value[..i];
      }
      i := i + 1;
    }
    kept := value;
  }

  // ----- the two agree

  predicate BetweenTokens(s: Scan) {
    s.quote.Outside? && !s.inToken
  }

  /** The first place where the splitter is between tokens and finds a comment character. */
  function CommentFrom(text: string, i: nat, s: Scan): (n: nat)
    requires i <= |text|
    ensures i <= n <= |text|
    decreases |text| - i
  {
    if i == |text| || (BetweenTokens(s) && StartsComment(text[i])) then i
    else CommentFrom(text, i + StepLength(text, i, s), SplitStep(text, i, s))
  }

  /** At a place both loops reach, being between tokens is seen on the character before. */
  predicate SameView(value: string, i: nat, s: Scan)
    requires i <= |value|
  {
    if s.quote.Outside? then !s.inToken <==> i == 0 || IsBlank(value[i - 1]) else s.inToken
  }

  lemma {:induction false} CutIsComment(value: string, i: nat, s: Scan)
    requires i <= |value| && SameView(value, i, s)
    ensures CutFrom(value, i, s.quote) == CommentFrom(value, i, s)
    decreases |value| - i
  {
    if i < |value| && !(BetweenTokens(s) && StartsComment(value[i])) {
      var j, t := i + StepLength(value, i, s), SplitStep(value, i, s);
      if s.quote.Double? && value[i] == '\\' && j == i + 1 < |value| {
        // The stripper skips the next character; the splitter keeps it as part of the argument.
        assert t.quote.Double? && !Escapes(value, j);
        CutIsComment(value, j + 1, SplitStep(value, j, t));
      } else {
        CutIsComment(value, j, t);
      }
    }
  }

  /** The splitter on a text cut off at n goes through the same states up to there. */
  lemma {:induction false} UpToCut(text: string, i: nat, s: Scan)
    requires i <= |text|
    ensures var n := CommentFrom(text, i, s);
            var at := SplitFrom(text[..n], i, s);
            && SplitFrom(text, i, s) == SplitFrom(text, n, at)
            && (n < |text| ==> BetweenTokens(at) && StartsComment(text[n]))
    decreases |text| - i
  {
    var n := CommentFrom(text, i, s);
    if i < |text| && !(BetweenTokens(s) && StartsComment(text[i])) {
      var j, t := i + StepLength(text, i, s), SplitStep(text, i, s);
      assert j <= n;
      assert StepLength(text[..n], i, s) == StepLength(text, i, s);
      assert SplitStep(text[..n], i, s) == t;
      UpToCut(text, j, t);
      assert SplitFrom(text[..n], i, s) == SplitFrom(text[..n], j, t);
    }
  }

  /**
   The stripper cuts at the first comment character that the splitter would meet between tokens,
   and nowhere else. So a value that is cut still splits, into the arguments that were complete
   at the cut.
   */
  lemma CutKeepsArguments(value: string)
    ensures var kept := Strip(value);
            var at := SplitFrom(kept, 0, START);
            && kept == value[..CommentFrom(value, 0, START)]
            && SplitFrom(value, 0, START) == SplitFrom(value, |kept|, at)
            && (kept != value ==>
                  && StartsComment(value[|kept|])
                  && BetweenTokens(at) && Split(kept) == Arguments(at.arguments))
  {
    CutIsComment(value, 0, START);
    UpToCut(value, 0, START);
    assert value[..|value|] == value;
  }

  // ----- writing arguments so that they come back

  function Escaped(argument: string): string {
    if argument == "" then "" else EscapedChar(argument[0]) + Escaped(argument[1..])
  }

  function EscapedChar(c: char): string {
    if c == '"' || c == '\\' then ['\\', c] else [c]
  }

  function InQuotes(argument: string): string {
    "\"" + Escaped(argument) + "\""
  }

  /** The arguments in double quotes, with a blank between each two. */
  function Written(arguments: seq<string>, blank: char): string {
    if arguments == [] then ""
    else if |arguments| == 1 then InQuotes(arguments[0])
    else Written(arguments[..|arguments| - 1], blank) + [blank] + InQuotes(arguments[|arguments| - 1])
  }

  /** The splitter gets from i to j without meeting a comment, changing its state from s to t. */
  predicate GetsTo(text: string, i: nat, s: Scan, j: nat, t: Scan) {
    && i <= |text| && j <= |text|
    && SplitFrom(text, i, s) == SplitFrom(text, j, t)
    && CommentFrom(text, i, s) == CommentFrom(text, j, t)
  }

  lemma OneStep(text: string, i: nat, s: Scan)
    requires i < |text| && !(BetweenTokens(s) && StartsComment(text[i]))
    ensures GetsTo(text, i, s, i + StepLength(text, i, s), SplitStep(text, i, s))
  {}

  lemma ReadsEscapedChar(text: string, i: nat, s: Scan, c: char)
    requires s.quote.Double? && At(text, i, EscapedChar(c))
    ensures GetsTo(text, i, s, i + |EscapedChar(c)|, Push(s, c))
  {
    hide SplitFrom, CommentFrom;
    var e := EscapedChar(c);
    assert text[i] == text[i..i + |e|][0];
    if |e| == 2 {
      assert text[i + 1] == text[i..i + |e|][1];
    }
    OneStep(text, i, s);
  }

  lemma {:induction false} ReadsEscaped(text: string, i: nat, s: Scan, argument: string)
    requires s.quote.Double? && At(text, i, Escaped(argument))
    ensures GetsTo(text, i, s, i + |Escaped(argument)|, s.(current := s.current + argument))
    decreases |argument|
  {
    hide SplitFrom, CommentFrom, EscapedChar;
    if argument == "" {
      assert s.(current := s.current + argument) == s;
    } else {
      var e, rest := EscapedChar(argument[0]), argument[1..];
      var t := Push(s, argument[0]);
      AtParts(text, i, e, Escaped(rest));
      ReadsEscapedChar(text, i, s, argument[0]);
      ReadsEscaped(text, i + |e|, t, rest);
      assert s.current + argument == t.current + rest;
    }
  }

  /** An argument in quotes is read back whole, whatever it contains. */
  lemma ReadsQuoted(text: string, i: nat, s: Scan, argument: string)
    requires BetweenTokens(s) && s.current == "" && At(text, i, InQuotes(argument))
    ensures GetsTo(text, i, s, i + |InQuotes(argument)|, Scan(s.arguments, argument, true, Outside))
  {
    hide SplitFrom, CommentFrom, Escaped;
    var e := Escaped(argument);
    AtParts(text, i, "\"" + e, "\"");
    AtParts(text, i, "\"", e);
    assert text[i] == text[i..i + 1][0] && text[i + 1 + |e|] == text[i + 1 + |e|..i + 1 + |e| + 1][0];
    OneStep(text, i, s);
    ReadsEscaped(text, i + 1, Scan(s.arguments, "", true, Double), argument);
    assert "" + argument == argument;
    OneStep(text, i + 1 + |e|, Scan(s.arguments, argument, true, Double));
  }

  lemma {:induction false} ReadsWritten(text: string, arguments: seq<string>, blank: char)
    requires IsBlank(blank) && arguments != [] && Written(arguments, blank) <= text
    ensures GetsTo(text, 0, START, |Written(arguments, blank)|,
                   Scan(arguments[..|arguments| - 1], arguments[|arguments| - 1], true, Outside))
    decreases |arguments|
  {
    hide SplitFrom, CommentFrom, InQuotes;
    var last := arguments[|arguments| - 1];
    var w := Written(arguments, blank);
    assert At(text, 0, w);
    if |arguments| == 1 {
      ReadsQuoted(text, 0, START, last);
      assert arguments[..0] == [];
    } else {
      var front := arguments[..|arguments| - 1];
      var f := Written(front, blank);
      AtParts(text, 0, f + [blank], InQuotes(last));
      AtParts(text, 0, f, [blank]);
      ReadsWritten(text, front, blank);
      var s := Scan(front[..|front| - 1], front[|front| - 1], true, Outside);
      OneStep(text, |f|, s);
      var t := Scan(front, "", false, Outside);
      assert front[..|front| - 1] + [front[|front| - 1]] == front;
      assert SplitStep(text, |f|, s) == t;
      ReadsQuoted(text, |f| + 1, t, last);
    }
  }

  /** Any argument list written in quotes is left whole by the stripper and split back exactly. */
  lemma WrittenComesBack(arguments: seq<string>, blank: char)
    requires IsBlank(blank)
    ensures Strip(Written(arguments, blank)) == Written(arguments, blank)
    ensures Split(Written(arguments, blank)) == Arguments(arguments)
  {
    var text := Written(arguments, blank);
    CutIsComment(text, 0, START);
    if arguments != [] {
      ReadsWritten(text, arguments, blank);
      assert arguments == arguments[..|arguments| - 1] + [arguments[|arguments| - 1]];
    }
    assert text[..|text|] == text;
  }
}
