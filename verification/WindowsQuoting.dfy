/**
 How arguments are written into one Windows command line, and the rules by which the started
 program takes that line apart again.
 */
module WindowsQuoting {
  import opened Sequences

  // ----- taking a command line apart

  /** The number of backslashes in a row from i on. */
  function Backslashes(text: string, i: nat): (n: nat)
    requires i <= |text|
    ensures i + n <= |text|
    ensures forall k :: i <= k < i + n ==> text[k] == '\\'
    ensures i + n < |text| ==> text[i + n] != '\\'
    decreases |text| - i
  {
    if i == |text| || text[i] != '\\' then 0 else 1 + Backslashes(text, i + 1)
  }

  function Repeat(c: char, n: nat): (s: string)
    ensures |s| == n && forall k :: 0 <= k < n ==> s[k] == c
  {
    seq(n, i => c)
  }

  datatype Scan = Scan(arguments: seq<string>, current: string, inArgument: bool, quoted: bool)

  const START := Scan([], "", false, false)

  predicate Separates(c: char) {
    c == ' ' || c == '\t'
  }

  /** The double quote at i and the one after it stand for one quote, for programs that follow that rule. */
  predicate IsDoubled(text: string, i: nat, s: Scan, doubling: bool)
    requires i < |text|
  {
    doubling && s.quoted && i + 1 < |text| && text[i + 1] == '"'
  }

  datatype Step = Step(next: nat, scan: Scan)

  /**
   The documented rules for arguments after the program name. Backslashes count only before a
   double quote: each two of them give one; one left over makes the quote a plain character, and
   none left over makes it open or close a quoted part. Inside one, two double quotes in a row give
   one for programs that were built to read them so; `doubling` says whether this program was.
   */
  function NextStep(text: string, i: nat, s: Scan, doubling: bool): (r: Step)
    requires i < |text|
    ensures i < r.next <= |text|
  {
    var n := Backslashes(text, i);
    if i + n < |text| && text[i + n] == '"' then
      var slashes := s.(current := s.current + Repeat('\\', n / 2), inArgument := true);
      if n % 2 == 1 then Step(i + n + 1, slashes.(current := slashes.current + "\""))
      else if IsDoubled(text, i + n, s, doubling) then Step(i + n + 2, slashes.(current := slashes.current + "\""))
      else Step(i + n + 1, slashes.(quoted := !s.quoted))
    else if n > 0 then
      Step(i + n, s.(current := s.current + Repeat('\\', n), inArgument := true))
    else if Separates(text[i]) && !s.quoted then
      Step(i + 1, if s.inArgument then Scan(s.arguments + [s.current], "", false, false) else s)
    else
      Step(i + 1, s.(current := s.current + [text[i]], inArgument := true))
  }

  function ScanFrom(text: string, i: nat, s: Scan, doubling: bool): Scan
    requires i <= |text|
    decreases |text| - i
  {
    if i == |text| then s
    else
      var step := NextStep(text, i, s, doubling);
      ScanFrom(text, step.next, step.scan, doubling)
  }

  /** The arguments a program finds in what follows its name. */
  function ReadArguments(text: string, doubling: bool): seq<string> {
    var s := ScanFrom(text, 0, START, doubling);
    if s.inArgument then s.arguments + [s.current] else s.arguments
  }

  // ----- writing it

  predicate IsSpecial(c: char) {
    c == ' ' || c == '\t' || c == '\n' || c == '\U{0B}' || c == '"'
  }

  predicate IsPlain(argument: string) {
    argument != "" && forall k :: 0 <= k < |argument| ==> !IsSpecial(argument[k])
  }

  /** What stands for the next character other than a backslash, with the backslashes before it. */
  function Piece(n: nat, c: char): string {
    (if c == '"' then Repeat('\\', 2 * n + 1) else Repeat('\\', n)) + [c]
  }

  /** The argument inside its quotes, from i on. */
  function Body(argument: string, i: nat): string
    requires i <= |argument|
    decreases |argument| - i
  {
    var n := Backslashes(argument, i);
    var j := i + n;
    if j == |argument| then Repeat('\\', 2 * n)
    else Piece(n, argument[j]) + Body(argument, j + 1)
  }

  function Quoted(argument: string): string {
    if IsPlain(argument) then argument else "\"" + Body(argument, 0) + "\""
  }

  /** How the loop moves past one character: what it appends, and what is left to write. */
  lemma BodyAt(argument: string, i: nat, before: string)
    requires i <= |argument|
    ensures var n := Backslashes(argument, i);
            var j := i + n;
            if j == |argument| then
              Body(argument, i) == Repeat('\\', 2 * n)
            else
              before + Body(argument, i) ==
                ((before + (if argument[j] == '"' then Repeat('\\', 2 * n + 1) else Repeat('\\', n))) + [argument[j]])
                + Body(argument, j + 1)
  {
    hide Repeat;
  }

  method QuoteArgument(argument: string) returns (quoted: string)
    ensures quoted == Quoted(argument)
  {
    hide Repeat, Body, Piece;
    if argument != "" && forall k :: 0 <= k < |argument| ==> !IsSpecial(argument[k]) {
      return argument;
    }
    quoted := "\"";
    var i := 0;
    while true
      invariant i <= |argument|
      invariant quoted + Body(argument, i) == "\"" + Body(argument, 0)
      decreases |argument| - i
    {
      ghost var start := i;
      var backslashes := 0;
      while i < |argument| && argument[i] == '\\'
        invariant i <= |argument| && i == start + backslashes
        invariant backslashes + Backslashes(argument, i) == Backslashes(argument, start)
      {
        i := i + 1;
        backslashes := backslashes + 1;
      }
      BodyAt(argument, start, quoted);
      if i == |argument| {
        quoted := quoted + Repeat('\\', backslashes * 2);
        break;
      }
      if argument[i] == '"' {
        quoted := quoted + Repeat('\\', backslashes * 2 + 1);
      } else {
        quoted := quoted + Repeat('\\', backslashes);
      }
      quoted := quoted + [argument[i]];
      i := i + 1;
    }
    quoted := quoted + "\"";
  }

  /** What follows the program name: each argument after a space. */
  function Tail(arguments: seq<string>): string {
    if arguments == [] then ""
    else Tail(arguments[..|arguments| - 1]) + " " + Quoted(arguments[|arguments| - 1])
  }

  method CommandLine(path: string, arguments: seq<string>) returns (line: string)
    ensures line == Quoted(path) + Tail(arguments)
  {
    hide Quoted;
    line := QuoteArgument(path);
    for i := 0 to |arguments|
      invariant line == Quoted(path) + Tail(arguments[..i])
    {
      var quoted := QuoteArgument(arguments[i]);
      assert arguments[..i + 1][..i] == arguments[..i];
      assert line + (" " + quoted) == Quoted(path) + (Tail(arguments[..i]) + " " + quoted);
      line := line + (" " + quoted);
    }
    assert arguments[..|arguments|] == arguments;
  }

  // ----- reading back what was written

  /** Exactly n backslashes, when n of them are followed by something else. */
  lemma CountsBackslashes(text: string, i: nat, n: nat)
    requires At(text, i, Repeat('\\', n))
    requires i + n < |text| ==> text[i + n] != '\\'
    ensures Backslashes(text, i) == n
    decreases n
  {
    if n > 0 {
      AtPoint(text, i, Repeat('\\', n), 0);
      assert Repeat('\\', n) == ['\\'] + Repeat('\\', n - 1);
      AtParts(text, i, ['\\'], Repeat('\\', n - 1));
      CountsBackslashes(text, i + 1, n - 1);
    }
  }

  predicate GetsTo(text: string, i: nat, s: Scan, j: nat, t: Scan, doubling: bool) {
    i <= |text| && j <= |text| && ScanFrom(text, i, s, doubling) == ScanFrom(text, j, t, doubling)
  }

  lemma OneStep(text: string, i: nat, s: Scan, doubling: bool)
    requires i < |text|
    ensures var step := NextStep(text, i, s, doubling); GetsTo(text, i, s, step.next, step.scan, doubling)
  {}

  lemma GetsOn(text: string, i: nat, s: Scan, j: nat, t: Scan, k: nat, u: Scan, doubling: bool)
    requires GetsTo(text, i, s, j, t, doubling) && GetsTo(text, j, t, k, u, doubling)
    ensures GetsTo(text, i, s, k, u, doubling)
  {}

  /** An argument ends here: at the end of the line or before the space to the next. */
  predicate EndsAt(text: string, j: nat) {
    j == |text| || (j < |text| && text[j] == ' ')
  }

  function Reading(s: Scan, more: string): Scan {
    s.(current := s.current + more, inArgument := true)
  }

  lemma Suffix(argument: string, k: nat)
    requires k <= |argument|
    ensures var n := Backslashes(argument, k);
            var j := k + n;
            argument[k..] == if j == |argument| then Repeat('\\', n)
                             else (Repeat('\\', n) + [argument[j]]) + argument[j + 1..]
  {
    var n := Backslashes(argument, k);
    assert argument[k..k + n] == Repeat('\\', n);
  }

  lemma ReadsPiece(text: string, i: nat, s: Scan, n: nat, c: char, doubling: bool)
    requires s.quoted && c != '\\' && At(text, i, Piece(n, c))
    ensures GetsTo(text, i, s, i + |Piece(n, c)|, Reading(s, Repeat('\\', n) + [c]), doubling)
  {
    hide GetsTo, Repeat;
    if c == '"' {
      ReadsEscapedQuote(text, i, s, n, doubling);
    } else {
      ReadsOther(text, i, s, n, c, doubling);
    }
  }

  lemma BodyParts(text: string, i: nat, argument: string, k: nat)
    requires k <= |argument| && At(text, i, Body(argument, k) + "\"")
    ensures var n := Backslashes(argument, k);
            var j := k + n;
            if j == |argument| then
              Body(argument, k) == Repeat('\\', 2 * n)
            else
              && At(text, i, Piece(n, argument[j]))
              && At(text, i + |Piece(n, argument[j])|, Body(argument, j + 1) + "\"")
              && |Body(argument, k)| == |Piece(n, argument[j])| + |Body(argument, j + 1)|
  {
    hide At, Repeat, Piece;
    var n := Backslashes(argument, k);
    var j := k + n;
    if j < |argument| {
      var piece, rest := Piece(n, argument[j]), Body(argument, j + 1);
      assert Body(argument, k) + "\"" == piece + (rest + "\"");
      AtParts(text, i, piece, rest + "\"");
    }
  }

  /** The piece at k and what follows it are read one after the other. */
  lemma ReadsOn(text: string, i: nat, s: Scan, argument: string, k: nat, at: nat, end: nat, doubling: bool)
    requires k <= |argument|
    requires var n := Backslashes(argument, k);
             && k + n < |argument|
             && var t := Reading(s, Repeat('\\', n) + [argument[k + n]]);
                && GetsTo(text, i, s, at, t, doubling)
                && GetsTo(text, at, t, end, Reading(t, argument[k + n + 1..]).(quoted := false), doubling)
    ensures GetsTo(text, i, s, end, Reading(s, argument[k..]).(quoted := false), doubling)
  {
    hide GetsTo, Repeat, Reading, Backslashes;
    var n := Backslashes(argument, k);
    var head := Repeat('\\', n) + [argument[k + n]];
    Suffix(argument, k);
    ReadingMore(s, head, argument[k + n + 1..]);
    GetsOn(text, i, s, at, Reading(s, head), end, Reading(s, argument[k..]).(quoted := false), doubling);
  }

  lemma {:induction false} ReadsBody(text: string, i: nat, s: Scan, argument: string, k: nat, doubling: bool)
    requires k <= |argument| && s.quoted && s.inArgument
    requires At(text, i, Body(argument, k) + "\"") && EndsAt(text, i + |Body(argument, k)| + 1)
    ensures GetsTo(text, i, s, i + |Body(argument, k)| + 1, Reading(s, argument[k..]).(quoted := false), doubling)
    decreases |argument| - k
  {
    hide GetsTo, Repeat, At, Piece, EndsAt, Body, Backslashes;
    var n := Backslashes(argument, k);
    var j := k + n;
    BodyParts(text, i, argument, k);
    if j == |argument| {
      Suffix(argument, k);
      ReadsClosing(text, i, s, n, doubling);
    } else {
      var head, at := Repeat('\\', n) + [argument[j]], i + |Piece(n, argument[j])|;
      ReadsPiece(text, i, s, n, argument[j], doubling);
      ReadsBody(text, at, Reading(s, head), argument, j + 1, doubling);
      ReadsOn(text, i, s, argument, k, at, i + |Body(argument, k)| + 1, doubling);
    }
  }

  lemma ReadingMore(s: Scan, a: string, b: string)
    ensures Reading(Reading(s, a), b) == Reading(s, a + b)
  {
    assert (s.current + a) + b == s.current + (a + b);
  }

  /** Twice n backslashes and the closing quote: n backslashes, and the quoted part ends. */
  lemma ReadsClosing(text: string, i: nat, s: Scan, n: nat, doubling: bool)
    requires s.quoted && s.inArgument && At(text, i, Repeat('\\', 2 * n) + "\"") && EndsAt(text, i + 2 * n + 1)
    ensures GetsTo(text, i, s, i + 2 * n + 1, Reading(s, Repeat('\\', n)).(quoted := false), doubling)
  {
    hide ScanFrom, Backslashes, Repeat;
    AtParts(text, i, Repeat('\\', 2 * n), "\"");
    AtPoint(text, i + 2 * n, "\"", 0);
    CountsBackslashes(text, i, 2 * n);
    OneStep(text, i, s, doubling);
  }

  /** One backslash more than twice n, and a quote: n backslashes and the quote itself. */
  lemma ReadsEscapedQuote(text: string, i: nat, s: Scan, n: nat, doubling: bool)
    requires At(text, i, Repeat('\\', 2 * n + 1) + "\"")
    ensures GetsTo(text, i, s, i + 2 * n + 2, Reading(s, Repeat('\\', n) + "\""), doubling)
  {
    hide ScanFrom, Backslashes, Repeat;
    AtParts(text, i, Repeat('\\', 2 * n + 1), "\"");
    AtPoint(text, i + 2 * n + 1, "\"", 0);
    CountsBackslashes(text, i, 2 * n + 1);
    OneStep(text, i, s, doubling);
    assert (s.current + Repeat('\\', n)) + "\"" == s.current + (Repeat('\\', n) + "\"");
  }

  /** Backslashes before another character, and that character, are kept as they are. */
  lemma ReadsOther(text: string, i: nat, s: Scan, n: nat, c: char, doubling: bool)
    requires c != '\\' && c != '"' && (s.quoted || !Separates(c))
    requires At(text, i, Repeat('\\', n) + [c])
    ensures GetsTo(text, i, s, i + n + 1, Reading(s, Repeat('\\', n) + [c]), doubling)
  {
    hide ScanFrom, Backslashes, Repeat;
    AtParts(text, i, Repeat('\\', n), [c]);
    AtPoint(text, i + n, [c], 0);
    CountsBackslashes(text, i, n);
    CountsBackslashes(text, i + n, 0);
    OneStep(text, i, s, doubling);
    OneStep(text, i + n, if n > 0 then Reading(s, Repeat('\\', n)) else s, doubling);
    var t := if n > 0 then Reading(s, Repeat('\\', n)) else s;
    assert GetsTo(text, i, s, i + n, t, doubling);
    assert GetsTo(text, i + n, t, i + n + 1, Reading(t, [c]), doubling);
    assert Reading(t, [c]).current == s.current + (Repeat('\\', n) + [c]);
  }

  /** A plain argument is read as it stands. */
  lemma {:induction false} ReadsPlain(text: string, i: nat, s: Scan, argument: string, k: nat, doubling: bool)
    requires IsPlain(argument) && k < |argument| && !s.quoted
    requires At(text, i, argument[k..]) && EndsAt(text, i + |argument| - k)
    ensures GetsTo(text, i, s, i + |argument| - k, Reading(s, argument[k..]), doubling)
    decreases |argument| - k
  {
    hide ScanFrom, Repeat;
    var n := Backslashes(argument, k);
    var j := k + n;
    Suffix(argument, k);
    if j == |argument| {
      CountsBackslashes(text, i, n);
      OneStep(text, i, s, doubling);
      assert NextStep(text, i, s, doubling) == Step(i + n, Reading(s, Repeat('\\', n)));
    } else {
      var head := Repeat('\\', n) + [argument[j]];
      AtParts(text, i, head, argument[j + 1..]);
      ReadsOther(text, i, s, n, argument[j], doubling);
      if j + 1 < |argument| {
        ReadsPlain(text, i + n + 1, Reading(s, head), argument, j + 1, doubling);
        ReadingMore(s, head, argument[j + 1..]);
      } else {
        assert argument[k..] == head;
      }
    }
  }

  lemma ReadsPlainWhole(text: string, i: nat, arguments: seq<string>, argument: string, doubling: bool)
    requires IsPlain(argument) && At(text, i, argument) && EndsAt(text, i + |argument|)
    ensures GetsTo(text, i, Scan(arguments, "", false, false), i + |argument|, Scan(arguments, argument, true, false),
                   doubling)
  {
    hide GetsTo, At, EndsAt;
    assert argument[0..] == argument && "" + argument == argument;
    ReadsPlain(text, i, Scan(arguments, "", false, false), argument, 0, doubling);
  }

  /** The quote that opens an argument. */
  lemma ReadsOpening(text: string, i: nat, arguments: seq<string>, doubling: bool)
    requires At(text, i, "\"")
    ensures GetsTo(text, i, Scan(arguments, "", false, false), i + 1, Scan(arguments, "", true, true), doubling)
  {
    hide ScanFrom, Backslashes;
    AtPoint(text, i, "\"", 0);
    CountsBackslashes(text, i, 0);
    OneStep(text, i, Scan(arguments, "", false, false), doubling);
    assert "" + Repeat('\\', 0) == "";
  }

  lemma ReadsQuotedWhole(text: string, i: nat, arguments: seq<string>, argument: string, doubling: bool)
    requires At(text, i, "\"" + (Body(argument, 0) + "\"")) && EndsAt(text, i + |Body(argument, 0)| + 2)
    ensures GetsTo(text, i, Scan(arguments, "", false, false), i + |Body(argument, 0)| + 2,
                   Scan(arguments, argument, true, false), doubling)
  {
    hide ScanFrom, At, EndsAt, Body;
    assert argument[0..] == argument && "" + argument == argument;
    AtParts(text, i, "\"", Body(argument, 0) + "\"");
    ReadsOpening(text, i, arguments, doubling);
    ReadsBody(text, i + 1, Scan(arguments, "", true, true), argument, 0, doubling);
  }

  lemma QuotedForm(argument: string)
    ensures IsPlain(argument) ==> Quoted(argument) == argument
    ensures !IsPlain(argument) ==> Quoted(argument) == "\"" + (Body(argument, 0) + "\"")
    ensures !IsPlain(argument) ==> |Quoted(argument)| == |Body(argument, 0)| + 2
  {
    hide Body, IsPlain;
    assert ("\"" + Body(argument, 0)) + "\"" == "\"" + (Body(argument, 0) + "\"");
  }

  lemma {:induction false} BodyIsNotShorter(argument: string, i: nat)
    requires i <= |argument|
    ensures |argument| - i <= |Body(argument, i)|
    decreases |argument| - i
  {
    var j := i + Backslashes(argument, i);
    if j < |argument| {
      BodyIsNotShorter(argument, j + 1);
    }
  }

  /** An argument is left as it is exactly when nothing in it needs quotes; otherwise it stands in quotes. */
  lemma QuotesOnlyWhenNeeded(argument: string)
    ensures Quoted(argument) == argument <==>
            argument != "" && forall c :: c in argument ==> c !in [' ', '\t', '\n', '\U{0B}', '"']
    ensures var q := Quoted(argument); q != argument ==> |q| >= 2 && q[0] == '"' && q[|q| - 1] == '"'
  {
    hide Body;
    QuotedForm(argument);
    BodyIsNotShorter(argument, 0);
    if argument != "" && forall c :: c in argument ==> c !in [' ', '\t', '\n', '\U{0B}', '"'] {
      forall k | 0 <= k < |argument|
        ensures !IsSpecial(argument[k])
      {
        assert argument[k] in argument;
      }
    }
  }

  lemma ReadsQuoted(text: string, i: nat, arguments: seq<string>, argument: string, doubling: bool)
    requires At(text, i, Quoted(argument)) && EndsAt(text, i + |Quoted(argument)|)
    ensures GetsTo(text, i, Scan(arguments, "", false, false), i + |Quoted(argument)|,
                   Scan(arguments, argument, true, false), doubling)
  {
    hide GetsTo, At, EndsAt, Body, Quoted, IsPlain;
    QuotedForm(argument);
    if IsPlain(argument) {
      ReadsPlainWhole(text, i, arguments, argument, doubling);
    } else {
      ReadsQuotedWhole(text, i, arguments, argument, doubling);
    }
  }

  lemma {:induction false} ReadsTail(text: string, arguments: seq<string>, doubling: bool)
    requires arguments != [] && Tail(arguments) <= text && EndsAt(text, |Tail(arguments)|)
    ensures GetsTo(text, 0, START, |Tail(arguments)|,
                   Scan(arguments[..|arguments| - 1], arguments[|arguments| - 1], true, false), doubling)
    decreases |arguments|
  {
    hide ScanFrom, Quoted;
    var front, last := arguments[..|arguments| - 1], arguments[|arguments| - 1];
    var f := Tail(front);
    assert Tail(arguments) == f + " " + Quoted(last) == (f + " ") + Quoted(last);
    assert At(text, 0, (f + " ") + Quoted(last));
    AtParts(text, 0, f + " ", Quoted(last));
    AtParts(text, 0, f, " ");
    AtPoint(text, |f|, " ", 0);
    CountsBackslashes(text, |f|, 0);
    var t := Scan(front, "", false, false);
    OneStep(text, |f|, if front == [] then START else Scan(front[..|front| - 1], front[|front| - 1], true, false),
            doubling);
    if front == [] {
      assert GetsTo(text, 0, START, 1, t, doubling);
    } else {
      assert f <= text;
      ReadsTail(text, front, doubling);
      var s := Scan(front[..|front| - 1], front[|front| - 1], true, false);
      assert front[..|front| - 1] + [front[|front| - 1]] == front;
      assert GetsTo(text, |f|, s, |f| + 1, t, doubling);
    }
    ReadsQuoted(text, |f| + 1, front, last, doubling);
  }

  /** Every argument list comes back from the command line exactly as it went in. */
  lemma ArgumentsComeBack(arguments: seq<string>, doubling: bool)
    ensures ReadArguments(Tail(arguments), doubling) == arguments
  {
    hide Quoted;
    if arguments != [] {
      ReadsTail(Tail(arguments), arguments, doubling);
      assert arguments == arguments[..|arguments| - 1] + [arguments[|arguments| - 1]];
    }
  }
}
