/** The text of a dead-letter file and the entries it is read as: what a rewrite of the file preserves. */
module DeadLetterLines {
  import opened TrajectorySteps
  import opened DeadLetters

  /** What the JSON parser makes of a line, blanks around it aside. */
  datatype Json = NotJson | Text(s: string) | Object(record: Record) | OtherJson(json: string)

  type Parser = string -> Json
  type Printer = Entry -> string

  predicate LineBreak(c: char) {
    var n := c as int;
    10 <= n <= 13 || 0x1C <= n <= 0x1E || n == 0x85 || n == 0x2028 || n == 0x2029
  }

  predicate OneLine(s: string) { forall i :: 0 <= i < |s| ==> !LineBreak(s[i]) }

  function LineLength(s: string): (n: nat)
    ensures n <= |s| && OneLine(s[..n]) && (n < |s| ==> LineBreak(s[n]))
  {
    if s == "" || LineBreak(s[0]) then 0 else 1 + LineLength(s[1..])
  }

  function Lines(s: string): seq<string>
    decreases |s|
  {
    var n := LineLength(s);
    if n == |s| then [s] else [s[..n]] + Lines(s[n + 1..])
  }

  /** A line that is not JSON is kept as it is; a line that is a JSON string becomes what the string
      denotes, and nothing tells the two apart afterwards. */
  function ReadLine(line: string, parse: Parser): seq<Entry> {
    if Blank(line) then []
    else
      match parse(line)
      case NotJson => [Raw(line)]
      case Text(s) => [Raw(s)]
      case Object(record) => [Dropped(record)]
      case OtherJson(json) => [Other(json)]
  }

  function ReadLines(lines: seq<string>, parse: Parser): seq<Entry> {
    if lines == [] then [] else ReadLine(lines[0], parse) + ReadLines(lines[1..], parse)
  }

  function ReadText(s: string, parse: Parser): seq<Entry> { ReadLines(Lines(s), parse) }

  function Written(e: Entry, dump: Printer): string { if e.Raw? then e.text else dump(e) }

  /** The text of a file after a rewrite. */
  function WriteText(es: seq<Entry>, dump: Printer): string {
    if es == [] then "" else Written(es[0], dump) + "\n" + WriteText(es[1..], dump)
  }

  ghost predicate TextsAreShorter(parse: Parser) { forall line, s :: parse(line) == Text(s) ==> |s| < |line| }

  /** A JSON string is longer than what it denotes, having quotes; any other value is printed as one line
      that is read as that value. */
  ghost predicate ActsLikeJson(parse: Parser, dump: Printer) {
    && TextsAreShorter(parse)
    && forall e: Entry :: !e.Raw? ==>
                            && OneLine(dump(e)) && !Blank(dump(e))
                            && parse(dump(e)) == if e.Dropped? then Object(e.record) else OtherJson(e.json)
  }

  lemma ReadOneMore(line: string, lines: seq<string>, parse: Parser)
    ensures ReadLines([line] + lines, parse) == ReadLine(line, parse) + ReadLines(lines, parse)
  {
    assert ([line] + lines)[1..] == lines;
  }

  lemma ReadOneLine(s: string, parse: Parser)
    requires OneLine(s)
    ensures ReadText(s, parse) == ReadLine(s, parse)
  {
    hide ReadLine, Blank;
    ReadOneMore(s, [], parse);
    assert Lines(s) == [s] + [];
    assert ReadLine(s, parse) + [] == ReadLine(s, parse);
  }

  lemma ReadFirstLine(s: string, parse: Parser)
    requires !OneLine(s)
    ensures var n := LineLength(s);
            n < |s| && ReadText(s, parse) == ReadLine(s[..n], parse) + ReadText(s[n + 1..], parse)
  {
    hide ReadLine, ReadLines, Blank, OneLine, LineBreak, LineLength;
    var n := LineLength(s);
    assert s[..|s|] == s;
    ReadOneMore(s[..n], Lines(s[n + 1..]), parse);
  }

  lemma {:induction false} LineEndsAtBreak(line: string, more: string)
    requires OneLine(line)
    ensures LineLength(line + "\n" + more) == |line|
  {
    var s := line + "\n" + more;
    if line != "" {
      assert s[1..] == line[1..] + "\n" + more;
      LineEndsAtBreak(line[1..], more);
    }
  }

  lemma {:induction false} FirstLineStays(s: string, more: string)
    requires !OneLine(s)
    ensures LineLength(s + "\n" + more) == LineLength(s) < |s|
  {
    if !LineBreak(s[0]) {
      assert (s + "\n" + more)[1..] == s[1..] + "\n" + more;
      FirstLineStays(s[1..], more);
    }
  }

  /** Two texts one below the other are read one after the other. */
  lemma {:induction false} ReadInTurn(s: string, more: string, parse: Parser)
    ensures ReadText(s + "\n" + more, parse) == ReadText(s, parse) + ReadText(more, parse)
    decreases |s|
  {
    hide ReadText, ReadLine, LineLength, LineBreak, Blank;
    var whole := s + "\n" + more;
    var n := LineLength(s);
    assert !OneLine(whole) by { NotOneLine(s, more); }
    ReadFirstLine(whole, parse);
    if OneLine(s) {
      LineEndsAtBreak(s, more);
      ReadOneLine(s, parse);
      assert whole[..|s|] == s && whole[|s| + 1..] == more;
    } else {
      FirstLineStays(s, more);
      ReadFirstLine(s, parse);
      assert whole[..n] == s[..n] && whole[n + 1..] == s[n + 1..] + "\n" + more;
      ReadInTurn(s[n + 1..], more, parse);
    }
  }

  lemma NotOneLine(s: string, more: string)
    ensures !OneLine(s + "\n" + more)
  {
    assert LineBreak((s + "\n" + more)[|s|]);
  }

  // ----- what a rewrite preserves -----

  /** An entry that stands on one line of its own and is read as itself there. */
  predicate Preserved(e: Entry, parse: Parser) {
    e.Raw? ==> OneLine(e.text) && !Blank(e.text) && parse(e.text) == NotJson
  }

  predicate AllPreserved(es: seq<Entry>, parse: Parser) { forall e :: e in es ==> Preserved(e, parse) }

  /** What an entry is read as after the file has been rewritten. */
  function ReadBack(e: Entry, parse: Parser, dump: Printer): seq<Entry> { ReadText(Written(e, dump), parse) }

  function Square(n: nat): nat { (n + 1) * (n + 1) }

  /** How much text there is; cutting a text into lines makes it less. */
  function Weight(es: seq<Entry>): nat {
    if es == [] then 0 else (if es[0].Raw? then Square(|es[0].text|) else 0) + Weight(es[1..])
  }

  lemma {:induction false} WeightAppend(es: seq<Entry>, more: seq<Entry>)
    ensures Weight(es + more) == Weight(es) + Weight(more)
  {
    hide Square;
    if es == [] {
      assert es + more == more;
    } else {
      assert (es + more)[1..] == es[1..] + more;
      WeightAppend(es[1..], more);
    }
  }

  lemma SquareGrows(m: nat, n: nat)
    requires m < n
    ensures Square(m) < Square(n)
  {
    assert (m + 1) * (m + 1) <= (m + 1) * (n + 1) < (n + 1) * (n + 1);
  }

  lemma SquareOfParts(m: nat, n: nat)
    ensures Square(m) + Square(n) < Square(m + n + 1)
  {
    var a, b := m + 1, n + 1;
    assert (a + b) * (a + b) == a * a + b * b + 2 * (a * b) && a * b > 0;
  }

  lemma WeightOfNone()
    ensures Weight([]) == 0
  {
  }

  lemma WeightOfOne(e: Entry)
    ensures Weight([e]) == if e.Raw? then Square(|e.text|) else 0
  {
    hide Square;
    assert [e][1..] == [];
  }

  lemma LineWeight(line: string, parse: Parser)
    requires TextsAreShorter(parse)
    ensures Weight(ReadLine(line, parse)) <= Square(|line|)
    ensures Weight(ReadLine(line, parse)) == Square(|line|) <==> !Blank(line) && parse(line) == NotJson
  {
    assert parse(line).Text? ==> |parse(line).s| < |line|;
    assert Square(|line|) > 0;
    hide Blank, Square, Weight, TextsAreShorter;
    WeightOfNone();
    match parse(line)
    case NotJson => WeightOfOne(Raw(line));
    case Text(t) =>
      WeightOfOne(Raw(t));
      SquareGrows(|t|, |line|);
    case Object(record) => WeightOfOne(Dropped(record));
    case OtherJson(json) => WeightOfOne(Other(json));
  }

  lemma {:induction false} TextWeight(s: string, parse: Parser)
    requires TextsAreShorter(parse)
    ensures Weight(ReadText(s, parse)) <= Square(|s|)
    ensures Weight(ReadText(s, parse)) == Square(|s|) <==> Preserved(Raw(s), parse)
    decreases |s|
  {
    hide ReadText, ReadLine, LineLength, OneLine, Blank, Square, Weight, TextsAreShorter;
    if OneLine(s) {
      ReadOneLine(s, parse);
      LineWeight(s, parse);
    } else {
      var n := LineLength(s);
      ReadFirstLine(s, parse);
      LineWeight(s[..n], parse);
      TextWeight(s[n + 1..], parse);
      WeightAppend(ReadLine(s[..n], parse), ReadText(s[n + 1..], parse));
      SquareOfParts(n, |s| - n - 1);
    }
  }

  /** An entry written by itself is read back as itself exactly if it is preserved, and as less text
      otherwise. A JSON value always is preserved; a text is exactly when it is one line, not blank, and
      not JSON itself. */
  lemma RewritePreserves(e: Entry, parse: Parser, dump: Printer)
    requires ActsLikeJson(parse, dump)
    ensures ReadBack(e, parse, dump) == [e] <==> Preserved(e, parse)
    ensures Weight(ReadBack(e, parse, dump)) <= Weight([e])
    ensures Weight(ReadBack(e, parse, dump)) == Weight([e]) <==> Preserved(e, parse)
  {
    hide ReadText, OneLine, Blank, Square;
    assert [e][1..] == [];
    if Preserved(e, parse) {
      ReadOneLine(Written(e, dump), parse);
    } else {
      TextWeight(e.text, parse);
    }
    if e.Raw? { TextWeight(e.text, parse); }
  }

  lemma WriteFirst(es: seq<Entry>, parse: Parser, dump: Printer)
    requires es != []
    ensures ReadText(WriteText(es, dump), parse) ==
            ReadBack(es[0], parse, dump) + ReadText(WriteText(es[1..], dump), parse)
  {
    hide ReadText;
    ReadInTurn(Written(es[0], dump), WriteText(es[1..], dump), parse);
  }

  lemma {:induction false} RewriteWeight(es: seq<Entry>, parse: Parser, dump: Printer)
    requires ActsLikeJson(parse, dump)
    ensures Weight(ReadText(WriteText(es, dump), parse)) <= Weight(es)
    ensures Weight(ReadText(WriteText(es, dump), parse)) == Weight(es) <==> AllPreserved(es, parse)
    ensures AllPreserved(es, parse) ==> ReadText(WriteText(es, dump), parse) == es
  {
    hide ReadText, ReadBack, Preserved, ActsLikeJson, Square;
    if es == [] {
      EmptyText(parse);
    } else {
      var first, rest := ReadBack(es[0], parse, dump), ReadText(WriteText(es[1..], dump), parse);
      PreservedCons(es, parse);
      hide WriteText, AllPreserved, Weight;
      WriteFirst(es, parse, dump);
      RewritePreserves(es[0], parse, dump);
      RewriteWeight(es[1..], parse, dump);
      WeightAppend([es[0]], es[1..]);
      WeightAppend(first, rest);
      assert es == [es[0]] + es[1..];
    }
  }

  lemma PreservedCons(es: seq<Entry>, parse: Parser)
    requires es != []
    ensures AllPreserved(es, parse) <==> Preserved(es[0], parse) && AllPreserved(es[1..], parse)
  {
    hide Preserved;
    assert es == [es[0]] + es[1..];
  }

  lemma EmptyText(parse: Parser)
    ensures ReadText("", parse) == []
  {
    ReadOneLine("", parse);
  }

  /** A rewritten file is read as the entries it was written from exactly if each of them is preserved. */
  lemma FileRewritePreserves(es: seq<Entry>, parse: Parser, dump: Printer)
    requires ActsLikeJson(parse, dump)
    ensures ReadText(WriteText(es, dump), parse) == es <==> AllPreserved(es, parse)
  {
    hide ReadText, WriteText, AllPreserved, Weight, ActsLikeJson;
    RewriteWeight(es, parse, dump);
  }
}
