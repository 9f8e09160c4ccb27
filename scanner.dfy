/**
 * The text half of `CppBackend::udfDatasetNames`: the preprocessed UDF source is
 * read line by line with `std::getline`, and every line that mentions
 * `lib.getData` contributes the text found between the first double quote
 * after the call and the next one.
 */
module Scanner {
  import opened Wrappers
  import opened StdString

  /** The data-access call whose first argument names a dataset. */
  const ApiCall: string := "lib.getData"

  /** The set of characters handed to `find_first_of`. */
  const Quote: string := "\""

  /**
   * The lines `std::getline` extracts from `text`: the pieces between
   * newlines, where a final newline does not start another (empty) line.
   */
  function Lines(text: CppString): (r: seq<CppString>)
    decreases |text|
  {
    if text == [] then []
    else if '\n' !in text then [text]
    else
      var i := IndexOf(text, '\n');
      [text[..i]] + Lines(text[i + 1..])
  }

  /** No extracted line holds a newline. */
  lemma {:induction false} LinesHaveNoNewline(text: CppString)
    ensures forall k :: 0 <= k < |Lines(text)| ==> '\n' !in Lines(text)[k]
  {
    if text != [] && '\n' in text {
      var i := IndexOf(text, '\n');
      LinesHaveNoNewline(text[i + 1..]);
    }
  }

  /** A line ended by a newline is extracted whole, then reading resumes after it. */
  lemma LinesCons(line: CppString, more: string)
    requires '\n' !in line
    requires |line| + 1 + |more| < NPos
    ensures Lines(line + "\n" + more) == [line] + Lines(more)
  {
    var text := line + "\n" + more;
    assert text[|line|] == '\n';
    var i := IndexOf(text, '\n');
    assert text[..i] == line;
    assert text[i + 1..] == more;
  }

  /** A last line without a newline is still extracted. */
  lemma LinesLast(line: CppString)
    requires line != [] && '\n' !in line
    ensures Lines(line) == [line]
  {
  }

  /**
   * The name one line contributes, computed as the source computes it, with
   * `size_t` arithmetic (`substr(pos)` takes everything from `pos` on):
   *   n     = line.find("lib.getData")
   *   start = line.substr(n).find_first_of("\"")
   *   end   = line.substr(n + start + 1).find_first_of("\"")
   *   name  = line.substr(n).substr(start + 1, end)
   */
  function LineName(line: CppString): Option<string>
  {
    var n := Find(line, ApiCall);
    if n == NPos then None else Some(NameFrom(line, n))
  }

  /** `line.substr(n)` and the quote search in it. */
  function NameFrom(line: CppString, n: nat): string
    requires n < |line|
  {
    var rest: CppString := line[n..];
    NameBetween(line, n, rest, FindFirstOf(rest, Quote))
  }

  /** The second quote search, from `n + start + 1`, and the final `substr`. */
  function NameBetween(line: CppString, n: nat, rest: CppString, start: Size): string
    requires n < |line| && rest == line[n..]
    requires start == NPos || start < |rest|
  {
    var tail: CppString := line[ToSize(n + start + 1)..];
    Substr(rest, ToSize(start + 1), FindFirstOf(tail, Quote))
  }

  /** `find_first_of("\"")` finds the first quote, or `npos` when there is none. */
  lemma FirstQuote(s: CppString)
    ensures '"' in s ==> FindFirstOf(s, Quote) == IndexOf(s, '"')
    ensures '"' !in s ==> FindFirstOf(s, Quote) == NPos
  {
    var r := FindFirstOf(s, Quote);
    assert '"' in Quote;
    if '"' in s {
      var q := IndexOf(s, '"');
      NotInPrefix(s, '"', q);
      NotInPrefix(s, '"', r);
    }
  }

  /** `t.substr(0, t.find_first_of("\""))` is the longest quote-free prefix of `t`. */
  lemma UpToQuote(t: CppString)
    ensures var name := Substr(t, 0, FindFirstOf(t, Quote));
            && name == t[..|name|]
            && '"' !in name
            && (|name| == |t| || t[|name|] == '"')
  {
  }

  /**
   * What `LineName` yields, stated without `size_t` arithmetic. A line
   * without the call yields nothing. Otherwise, with `rest` the line from the
   * first call on: when `rest` has no quote (so `npos + 1` wraps to 0) the
   * name is all of `rest`; otherwise it is the longest quote-free text after
   * the first quote, which ends at the next quote or at the end of the line.
   */
  lemma LineNameCases(line: CppString)
    ensures LineName(line).None? <==> forall j :: !MatchesAt(line, ApiCall, j)
    ensures LineName(line).Some? ==>
              var rest := line[Find(line, ApiCall)..];
              var name := LineName(line).value;
              && ('"' !in rest ==> name == rest)
              && ('"' in rest ==> QuotedAfter(rest, IndexOf(rest, '"'), name))
  {
    var n := Find(line, ApiCall);
    if n != NPos {
      var rest: CppString := line[n..];
      if '"' in rest {
        QuotedName(line);
        ShapeAfterQuote(rest, IndexOf(rest, '"'));
      } else {
        UnquotedName(line);
      }
    }
  }

  /**
   * `name` is the text right after position `q` of `rest`, holds no quote,
   * and is ended by a quote or by the end of `rest`.
   */
  predicate QuotedAfter(rest: string, q: nat, name: string)
  {
    && q + 1 + |name| <= |rest|
    && rest[q + 1..q + 1 + |name|] == name
    && '"' !in name
    && (q + 1 + |name| == |rest| || rest[q + 1 + |name|] == '"')
  }

  /** At most one name has that shape: it is fixed by where the next quote is. */
  lemma QuotedAfterUnique(rest: string, q: nat, a: string, b: string)
    requires QuotedAfter(rest, q, a) && QuotedAfter(rest, q, b)
    ensures a == b
  {
    forall j | q + 1 <= j < q + 1 + |a|
      ensures rest[j] != '"'
    {
      assert rest[q + 1..q + 1 + |a|][j - q - 1] == a[j - q - 1];
    }
    forall j | q + 1 <= j < q + 1 + |b|
      ensures rest[j] != '"'
    {
      assert rest[q + 1..q + 1 + |b|][j - q - 1] == b[j - q - 1];
    }
    assert |a| == |b|;
  }

  /** The text after a quote up to the next quote (or the end) is quote-free and maximal. */
  lemma ShapeAfterQuote(rest: CppString, q: nat)
    requires q < |rest|
    ensures var tail: CppString := rest[q + 1..];
            QuotedAfter(rest, q, Substr(tail, 0, FindFirstOf(tail, Quote)))
  {
    var tail: CppString := rest[q + 1..];
    UpToQuote(tail);
    var name := Substr(tail, 0, FindFirstOf(tail, Quote));
    assert rest[q + 1..q + 1 + |name|] == tail[..|name|];
    assert |name| < |tail| ==> rest[q + 1 + |name|] == tail[|name|];
  }

  /** With no quote after the call, `npos + 1` wraps to 0 and the whole rest is taken. */
  lemma UnquotedName(line: CppString)
    requires Find(line, ApiCall) != NPos
    requires '"' !in line[Find(line, ApiCall)..]
    ensures LineName(line) == Some(line[Find(line, ApiCall)..])
  {
    var n := Find(line, ApiCall);
    var rest: CppString := line[n..];
    FirstQuote(rest);
    assert NameFrom(line, n) == NameBetween(line, n, rest, NPos);
    assert ToSize(n + NPos + 1) == n;
    assert ToSize(NPos + 1) == 0;
    FirstQuote(rest);
    assert NameBetween(line, n, rest, NPos) == Substr(rest, 0, NPos);
  }

  /** From a quote at `q`, the name is what follows it up to the next quote. */
  lemma NameAfterQuote(line: CppString, n: nat, rest: CppString, q: nat)
    requires n < |line| && rest == line[n..] && q < |rest|
    ensures var tail: CppString := rest[q + 1..];
            NameBetween(line, n, rest, q) == Substr(tail, 0, FindFirstOf(tail, Quote))
  {
    var tail: CppString := rest[q + 1..];
    assert line[n + q + 1..] == tail;
    var end := FindFirstOf(tail, Quote);
    assert ToSize(n + q + 1) == n + q + 1;
    assert ToSize(q + 1) == q + 1;
    assert NameBetween(line, n, rest, q) == Substr(rest, q + 1, end);
    if end <= |tail| {
      assert Substr(rest, q + 1, end) == rest[q + 1..q + 1 + end] == tail[..end];
    } else {
      assert Substr(rest, q + 1, end) == tail;
    }
  }

  /** After the first quote, the name runs to the next quote or the end of the line. */
  lemma QuotedName(line: CppString)
    requires Find(line, ApiCall) != NPos
    requires '"' in line[Find(line, ApiCall)..]
    ensures var rest := line[Find(line, ApiCall)..];
            var q := IndexOf(rest, '"');
            var tail: CppString := rest[q + 1..];
            LineName(line) == Some(Substr(tail, 0, FindFirstOf(tail, Quote)))
  {
    var n := Find(line, ApiCall);
    var rest: CppString := line[n..];
    FirstQuote(rest);
    var q := IndexOf(rest, '"');
    assert NameFrom(line, n) == NameBetween(line, n, rest, q);
    NameAfterQuote(line, n, rest, q);
  }

  /** In `lib.getData("name")…` the first quote opens the argument, which is quote-free. */
  lemma ArgumentShape(rest: string, name: string)
    requires |ApiCall| + 2 + |name| < |rest| && rest[..|ApiCall|] == ApiCall
    requires rest[|ApiCall|..|ApiCall| + 2] == "(\""
    requires rest[|ApiCall| + 2..|ApiCall| + 2 + |name|] == name
    requires rest[|ApiCall| + 2 + |name|] == '"'
    requires '"' !in name
    ensures '"' in rest && IndexOf(rest, '"') == |ApiCall| + 1
    ensures QuotedAfter(rest, |ApiCall| + 1, name)
  {
    var q := |ApiCall| + 1;
    assert rest[q] == rest[|ApiCall|..|ApiCall| + 2][1];
    var p := IndexOf(rest, '"');
    NotInPrefix(rest, '"', p);
    forall k | 0 <= k < q
      ensures rest[k] != '"'
    {
      if k < |ApiCall| {
        assert rest[k] == rest[..|ApiCall|][k];
      } else {
        assert rest[k] == rest[|ApiCall|..|ApiCall| + 2][0];
      }
    }
  }

  /** The well-formed call `lib.getData("name")` yields `name`. */
  lemma QuotedArgument(line: CppString, name: string)
    requires Find(line, ApiCall) != NPos
    requires var after := Find(line, ApiCall) + |ApiCall|;
             && after + 2 + |name| < |line|
             && line[after..after + 2] == "(\""
             && line[after + 2..after + 2 + |name|] == name
             && line[after + 2 + |name|] == '"'
    requires '"' !in name
    ensures LineName(line) == Some(name)
  {
    var n := Find(line, ApiCall);
    var rest := line[n..];
    var q := |ApiCall| + 1;
    ArgumentShape(rest, name);
    LineNameCases(line);
    QuotedAfterUnique(rest, q, LineName(line).value, name);
  }

  /** What one line adds to the result: its name, if it mentions the call. */
  function Contribution(line: CppString): seq<string>
  {
    match LineName(line)
    case Some(name) => [name]
    case None => []
  }

  /** The names a sequence of lines contributes, one per matching line, in order. */
  function Names(lines: seq<CppString>): seq<string>
  {
    if lines == [] then [] else Contribution(lines[0]) + Names(lines[1..])
  }

  /** The names of concatenated lines are the concatenated names: order and repeats are kept. */
  lemma {:induction false} NamesAppend(a: seq<CppString>, b: seq<CppString>)
    ensures Names(a + b) == Names(a) + Names(b)
  {
    if a == [] {
      assert a + b == b;
    } else {
      assert (a + b)[0] == a[0];
      assert (a + b)[1..] == a[1..] + b;
      NamesAppend(a[1..], b);
    }
  }

  /** The names found in preprocessed text. */
  function ScanText(text: CppString): seq<string>
  {
    Names(Lines(text))
  }

  /** Where reading resumes once the line ending at `e` has been extracted. */
  function Resume(input: CppString, e: nat): (r: nat)
    requires e <= |input|
    ensures e <= r <= |input|
  {
    if e < |input| then e + 1 else e
  }

  /**
   * One turn of the `getline` loop: the line from `pos` up to the next
   * newline `e` (or the end) contributes its name, and reading resumes after it.
   */
  lemma ScanStep(input: CppString, pos: nat, e: nat, line: CppString)
    requires pos < |input| && pos <= e <= |input| && line == input[pos..e]
    requires forall k :: pos <= k < e ==> input[k] != '\n'
    requires e < |input| ==> input[e] == '\n'
    ensures Names(Lines(input[pos..])) ==
              Contribution(line) + Names(Lines(input[Resume(input, e)..]))
  {
    assert '\n' !in line by {
      forall k | 0 <= k < |line|
        ensures line[k] != '\n'
      {
        assert line[k] == input[pos + k];
      }
    }
    if e < |input| {
      assert input[pos..] == line + "\n" + input[e + 1..];
      LinesCons(line, input[e + 1..]);
    } else {
      assert input[pos..] == line;
      if line == [] {
        assert false;
      }
      LinesLast(line);
      assert input[e..] == [];
    }
  }

  /**
   * The search `getline` makes from `pos`: the line runs up to the first
   * newline `e`, or to the end of the input when there is none.
   */
  method GetLine(input: CppString, pos: nat) returns (e: nat, line: CppString)
    requires pos <= |input|
    ensures pos <= e <= |input| && line == input[pos..e]
    ensures forall k :: pos <= k < e ==> input[k] != '\n'
    ensures e < |input| ==> input[e] == '\n'
  {
    e := pos;
    while e < |input| && input[e] != '\n'
      invariant pos <= e <= |input|
      invariant forall k :: pos <= k < e ==> input[k] != '\n'
    {
      e := e + 1;
    }
    line := input[pos..e];
  }

  /** The loop invariant of `DatasetNames` survives one turn. */
  lemma ScanAdvance(input: CppString, pos: nat, e: nat, line: CppString, output: seq<string>)
    requires pos < |input| && pos <= e <= |input| && line == input[pos..e]
    requires forall k :: pos <= k < e ==> input[k] != '\n'
    requires e < |input| ==> input[e] == '\n'
    requires ScanText(input) == output + Names(Lines(input[pos..]))
    ensures ScanText(input) == (output + Contribution(line)) + Names(Lines(input[Resume(input, e)..]))
  {
    ScanStep(input, pos, e, line);
  }

  /** The body of the `getline` loop: a line's name, if any, joins the output. */
  method Append(output: seq<string>, line: CppString) returns (r: seq<string>)
    ensures r == output + Contribution(line)
  {
    match LineName(line) {
      case Some(name) => r := output + [name];
      case None => r := output;
    }
  }

  /**
   * The `getline` loop of `udfDatasetNames`: each line is extracted up to its
   * newline and, when it mentions the call, its name is appended to `output`.
   */
  method DatasetNames(input: CppString) returns (output: seq<string>)
    ensures output == ScanText(input)
  {
    output := [];
    var pos := 0;
    while pos < |input|
      invariant 0 <= pos <= |input|
      invariant ScanText(input) == output + Names(Lines(input[pos..]))
    {
      var e, line := GetLine(input, pos);
      ScanAdvance(input, pos, e, line, output);
      output := Append(output, line);
      pos := Resume(input, e);
    }
  }

  /**
   * A line `prefix lib.getData("name") suffix` names `name`, provided the
   * prefix cannot hold an earlier occurrence of the call.
   */
  lemma CallLine(prefix: string, name: string, suffix: string)
    requires 'l' !in prefix && '"' !in name
    requires |prefix| + |ApiCall| + |name| + 3 + |suffix| < NPos
    ensures var line: CppString := prefix + ApiCall + "(\"" + name + Quote + suffix;
            LineName(line) == Some(name)
  {
    var line: CppString := prefix + ApiCall + "(\"" + name + Quote + suffix;
    var p := |prefix|;
    CallAfterPrefix(line, prefix);
    var after := p + |ApiCall|;
    assert line[after..after + 2] == "(\"";
    assert line[after + 2..after + 2 + |name|] == name;
    assert line[after + 2 + |name|] == '"';
    QuotedArgument(line, name);
  }

  /** The call is found right after a prefix that holds no `l`. */
  lemma CallAfterPrefix(line: CppString, prefix: string)
    requires |prefix| + |ApiCall| <= |line| && line[..|prefix|] == prefix
    requires line[|prefix|..|prefix| + |ApiCall|] == ApiCall
    requires 'l' !in prefix
    ensures Find(line, ApiCall) == |prefix|
  {
    var p := |prefix|;
    forall j | 0 <= j < p
      ensures !MatchesAt(line, ApiCall, j)
    {
      assert line[j] == line[..p][j];
    }
    assert MatchesAt(line, ApiCall, p);
  }

  /** Lines are scanned independently: a first line adds its name ahead of the rest's. */
  lemma ScanFirstLine(line: CppString, more: string)
    requires '\n' !in line
    requires |line| + 1 + |more| < NPos
    ensures ScanText(line + "\n" + more) == Contribution(line) + ScanText(more)
  {
    LinesCons(line, more);
    var lines := [line] + Lines(more);
    assert lines[0] == line && lines[1..] == Lines(more);
  }

  /** A text of one line, without a newline, scans to what that line contributes. */
  lemma SingleLine(line: CppString)
    requires line != [] && '\n' !in line
    ensures ScanText(line) == Contribution(line)
  {
    LinesLast(line);
    assert Names([line]) == Contribution(line) + Names([line][1..]);
  }

  /** The fixed parts of a call hold no newline. */
  lemma CallPartsOneLine()
    ensures '\n' !in ApiCall && '\n' !in "(\"" && '\n' !in Quote
  {
  }

  /** A text made of one such line scans to exactly that one name. */
  lemma OneCallText(prefix: string, name: string, suffix: string)
    requires 'l' !in prefix && '"' !in name
    requires '\n' !in prefix && '\n' !in name && '\n' !in suffix
    requires |prefix| + |ApiCall| + |name| + 3 + |suffix| < NPos
    ensures ScanText(prefix + ApiCall + "(\"" + name + Quote + suffix) == [name]
  {
    var line: CppString := prefix + ApiCall + "(\"" + name + Quote + suffix;
    CallLine(prefix, name, suffix);
    CallPartsOneLine();
    SingleLine(line);
  }

  /** The line `ds1_data = lib.getData("Dataset1")` of a UDF names `Dataset1`. */
  lemma SingleCall()
    ensures ScanText("    ds1_data = lib.getData(\"Dataset1\")") == ["Dataset1"]
  {
    assert "    ds1_data = lib.getData(\"Dataset1\")" == "    ds1_data = " + ApiCall + "(\"" + "Dataset1" + Quote + ")";
    OneCallText("    ds1_data = ", "Dataset1", ")");
  }

  /** A call line followed by more text: its name comes first, then the rest's. */
  lemma CallLineThen(prefix: string, name: string, more: CppString)
    requires 'l' !in prefix && '"' !in name
    requires '\n' !in prefix && '\n' !in name
    requires |prefix| + |ApiCall| + |name| + 5 + |more| < NPos
    ensures ScanText(prefix + ApiCall + "(\"" + name + Quote + ")" + "\n" + more) == [name] + ScanText(more)
  {
    var line: CppString := prefix + ApiCall + "(\"" + name + Quote + ")";
    CallLine(prefix, name, ")");
    CallPartsOneLine();
    assert '\n' !in ")";
    ScanFirstLine(line, more);
  }
}
