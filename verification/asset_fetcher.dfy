/**
 * `AssetFetcher.__parse_channels`: reads the channel file's lines, skips the
 * header, parses each remaining `name,priority` line, and returns the names
 * ordered by priority, highest first, ties in file order.
 */
module AssetFetcher {
  import opened Wrappers
  import opened Text
  import opened ChannelOrder

  /** Why a single data line is rejected: it does not split into exactly two
      fields (the tuple unpacking raises), or its priority is not an integer
      (`int(...)` raises). */
  datatype LineError = WrongFieldCount | PriorityNotInteger

  /** Why the whole parse fails: the file has no line at all, so skipping the
      header raises; or line `index` (0 is the header) is rejected. */
  datatype ParseError = MissingHeader | BadLine(index: nat, reason: LineError)

  /** One data line: strip it, split on `,`, unpack exactly two fields, strip
      the name, strip and parse the priority. */
  function ParseLine(line: string): (r: Result<Channel, LineError>)
    ensures multiset(line)[','] != 1 <==> r == Failure(WrongFieldCount)
    ensures r.Success? ==> ',' !in r.value.name && Trimmed(r.value.name)
  {
    var stripped := Strip(line);
    StripKeepsNonSpace(line, ',');
    StripSpec(line);
    var fields := Split(stripped, ',');
    SplitSpec(stripped, ',');
    if |fields| != 2 then Failure(WrongFieldCount)
    else
      match ParseInt(Strip(fields[1]))
      case None => Failure(PriorityNotInteger)
      case Some(priority) =>
        var name := Strip(fields[0]);
        StripSpec(fields[0]);
        StripKeepsNonSpace(fields[0], ',');
        assert ',' !in name by {
          assert multiset(fields[0])[','] == 0;
        }
        Success(Channel(name, priority))
  }

  /** A line with exactly one comma, whatever the text around it: the name is
      the stripped text before the comma, and the line fails exactly when the
      stripped text after it is not an integer. */
  lemma ParseLineContent(a: string, b: string)
    requires ',' !in a && ',' !in b
    ensures ParseLine(a + [','] + b)
         == match ParseInt(Strip(b))
            case None => Failure(PriorityNotInteger)
            case Some(p) => Success(Channel(Strip(a), p))
  {
    var left, right := TrimLeft(a), TrimRight(b);
    StripAround(a, ',', b);
    TrimLeftSpec(a);
    TrimRightSpec(b);
    assert ',' !in left by {
      assert left == a[|a| - |left|..];
    }
    assert ',' !in right by {
      assert right == b[..|right|];
    }
    JoinTwo(left, right, ',');
    SplitJoin([left, right], ',');
    StripTrimLeft(a);
    StripTrimRight(b);
  }

  /** Collects the values of `results[i..]` in order, or stops at the first
      failure and reports its index; the loop of the source, where the first
      line that raises ends the parse. */
  function CollectFrom<T, E>(results: seq<Result<T, E>>, i: nat): (r: Result<seq<T>, (nat, E)>)
    requires i <= |results|
    ensures r.Success? <==> forall k :: i <= k < |results| ==> results[k].Success?
    ensures r.Success? ==> |r.value| == |results| - i
    ensures r.Success? ==> forall k :: 0 <= k < |r.value| ==> Success(r.value[k]) == results[i + k]
    ensures r.Failure? ==>
              && i <= r.error.0 < |results|
              && results[r.error.0] == Failure(r.error.1)
              && forall k :: i <= k < r.error.0 ==> results[k].Success?
    decreases |results| - i
  {
    if i == |results| then Success([])
    else
      match results[i]
      case Failure(e) => Failure((i, e))
      case Success(v) =>
        match CollectFrom(results, i + 1)
        case Failure(e) => Failure(e)
        case Success(vs) => Success([v] + vs)
  }

  /** Every line of the file run through `ParseLine`, header included. */
  function ParsedLines(lines: seq<string>): (results: seq<Result<Channel, LineError>>)
    ensures |results| == |lines|
    ensures forall k :: 0 <= k < |lines| ==> results[k] == ParseLine(lines[k])
  {
    seq(|lines|, k requires 0 <= k < |lines| => ParseLine(lines[k]))
  }

  /** The channels of the data lines, in file order, of a file that has a
      header line; a failure is reported by its position among the data lines. */
  function DataRows(lines: seq<string>): (r: Result<seq<Channel>, (nat, LineError)>)
    requires |lines| > 0
  {
    CollectFrom(ParsedLines(lines[1..]), 0)
  }

  /** `__parse_channels` on the lines of the channel file. */
  function ParseChannels(lines: seq<string>): (r: Result<seq<string>, ParseError>)
    ensures |lines| == 0 <==> r == Failure(MissingHeader)
    ensures r.Success? <==> |lines| > 0 && forall k :: 1 <= k < |lines| ==> ParseLine(lines[k]).Success?
    ensures r.Success? ==> |r.value| == |lines| - 1
    ensures r.Success? ==> multiset(r.value) == multiset(Names(DataRows(lines).value))
    ensures r.Failure? && |lines| > 0 ==>
              && r.error.BadLine?
              && 1 <= r.error.index < |lines|
              && ParseLine(lines[r.error.index]) == Failure(r.error.reason)
              && forall k :: 1 <= k < r.error.index ==> ParseLine(lines[k]).Success?
  {
    if |lines| == 0 then Failure(MissingHeader)
    else
      var data := lines[1..];
      var r := RankData(data);
      assert forall k :: 1 <= k < |lines| ==> lines[k] == data[k - 1];
      r
  }

  /** Parses the data lines and ranks their names; a failure reports the line's
      position in the whole file, counting the header as line 0. */
  function RankData(data: seq<string>): (r: Result<seq<string>, ParseError>)
    ensures r.Success? <==> forall k :: 0 <= k < |data| ==> ParseLine(data[k]).Success?
    ensures r.Success? ==> |r.value| == |data|
    ensures r.Success? ==> multiset(r.value) == multiset(Names(CollectFrom(ParsedLines(data), 0).value))
    ensures r.Failure? ==>
              && r.error.BadLine?
              && 1 <= r.error.index <= |data|
              && ParseLine(data[r.error.index - 1]) == Failure(r.error.reason)
              && forall k :: 0 <= k < r.error.index - 1 ==> ParseLine(data[k]).Success?
  {
    match CollectFrom(ParsedLines(data), 0)
    case Failure((index, reason)) => Failure(BadLine(index + 1, reason))
    case Success(rows) =>
      var ranked := SortByPriority(rows);
      SortKeepsNames(rows);
      NamesLength(ranked);
      Success(Names(ranked))
  }

  lemma {:induction false} NamesLength(s: seq<Channel>)
    ensures |Names(s)| == |s|
  {
    if s != [] {
      NamesLength(s[1..]);
    }
  }

  /** The header is never parsed: whatever the first line holds, the result
      depends only on the lines after it. */
  lemma HeaderIgnored(header1: string, header2: string, rows: seq<string>)
    ensures ParseChannels([header1] + rows) == ParseChannels([header2] + rows)
  {
    assert ParseChannels([header1] + rows) == RankData(rows) by {
      assert ([header1] + rows)[1..] == rows;
    }
    assert ParseChannels([header2] + rows) == RankData(rows) by {
      assert ([header2] + rows)[1..] == rows;
    }
  }

  /** The result is the names of the unique ordering of the rows that has
      non-increasing priorities and keeps rows of equal priority in file order. */
  lemma ParseChannelsRanks(lines: seq<string>, ranked: seq<Channel>)
    requires |lines| > 0 && DataRows(lines).Success?
    requires SortedByPriority(ranked)
    requires forall p :: WithPriority(ranked, p) == WithPriority(DataRows(lines).value, p)
    ensures ParseChannels(lines) == Success(Names(ranked))
  {
    SortCharacterized(DataRows(lines).value, ranked);
  }

  /** A channel written as a `name,priority` line. */
  function FormatLine(c: Channel): string {
    c.name + [','] + ShowInt(c.priority)
  }

  predicate WellFormedName(name: string) {
    ',' !in name && Trimmed(name)
  }

  /** Writing a channel as a line and parsing it back gives the channel, for
      every name without commas or surrounding whitespace. */
  lemma ParseFormatLine(c: Channel)
    requires WellFormedName(c.name)
    ensures ParseLine(FormatLine(c)) == Success(c)
  {
    var digits := ShowInt(c.priority);
    FormattedFields(c);
    ShowIntPlain(c.priority);
    StripUnchanged(digits);
    StripUnchanged(c.name);
    ParseShowInt(c.priority);
  }

  /** A formatted line is already stripped and splits into the name and the
      priority's digits. */
  lemma FormattedFields(c: Channel)
    requires WellFormedName(c.name)
    ensures Split(Strip(FormatLine(c)), ',') == [c.name, ShowInt(c.priority)]
  {
    FormattedLineStripped(c);
    FormattedLineSplits(c);
  }

  lemma FormattedLineStripped(c: Channel)
    requires WellFormedName(c.name)
    ensures Strip(FormatLine(c)) == FormatLine(c)
  {
    ShowIntPlain(c.priority);
    FormattedLineTrimmed(c.name, ShowInt(c.priority));
    StripUnchanged(FormatLine(c));
  }

  lemma FormattedLineSplits(c: Channel)
    requires ',' !in c.name
    ensures Split(FormatLine(c), ',') == [c.name, ShowInt(c.priority)]
  {
    var digits := ShowInt(c.priority);
    ShowIntPlain(c.priority);
    JoinTwo(c.name, digits, ',');
    SplitJoin([c.name, digits], ',');
  }

  lemma FormattedLineTrimmed(name: string, digits: string)
    requires Trimmed(name) && Trimmed(digits) && digits != []
    ensures Trimmed(name + [','] + digits)
  {
    var line := name + [','] + digits;
    if name != [] {
      assert line[0] == name[0];
    } else {
      assert line[0] == ',';
    }
    assert line[|line| - 1] == digits[|digits| - 1];
  }

  /** The channel file holding `cs` under any header, one line per channel. */
  function FormatFile(header: string, cs: seq<Channel>): (lines: seq<string>)
    ensures |lines| == |cs| + 1 && lines[0] == header
    ensures forall k :: 0 <= k < |cs| ==> lines[k + 1] == FormatLine(cs[k])
  {
    var rows := seq(|cs|, k requires 0 <= k < |cs| => FormatLine(cs[k]));
    var lines := [header] + rows;
    forall k | 0 <= k < |cs| ensures lines[k + 1] == FormatLine(cs[k]) {
      assert lines[k + 1] == rows[k];
    }
    lines
  }

  /** Writing channels to a file and parsing it gives their names in stable
      descending priority order. */
  lemma ParseFormatFile(header: string, cs: seq<Channel>)
    requires forall k :: 0 <= k < |cs| ==> WellFormedName(cs[k].name)
    ensures ParseChannels(FormatFile(header, cs)) == Success(Names(SortByPriority(cs)))
  {
    var lines := FormatFile(header, cs);
    forall k | 1 <= k < |lines| ensures ParseLine(lines[k]) == Success(cs[k - 1]) {
      ParseFormatLine(cs[k - 1]);
    }
    assert DataRows(lines).value == cs;
  }

  /** The example of three rows with two equal priorities: `A,1`, `B,5`, `C,5`
      come back as B, C, A. */
  lemma TiesKeepFileOrderExample()
    ensures ParseChannels(["name,priority", "A,1", "B,5", "C,5"]) == Success(["B", "C", "A"])
  {
    var cs := [Channel("A", 1), Channel("B", 5), Channel("C", 5)];
    ExampleFile(cs);
    ExampleRanking(cs);
    ParseFormatFile("name,priority", cs);
  }

  lemma ExampleFile(cs: seq<Channel>)
    requires cs == [Channel("A", 1), Channel("B", 5), Channel("C", 5)]
    ensures FormatFile("name,priority", cs) == ["name,priority", "A,1", "B,5", "C,5"]
    ensures forall k :: 0 <= k < |cs| ==> WellFormedName(cs[k].name)
  {
    assert WellFormedName("A") && WellFormedName("B") && WellFormedName("C");
    assert DigitChar(1) == '1' && DigitChar(5) == '5';
    assert ShowInt(1) == "1" && ShowInt(5) == "5";
    assert FormatLine(cs[0]) == "A,1";
    assert FormatLine(cs[1]) == "B,5";
    assert FormatLine(cs[2]) == "C,5";
  }

  lemma NamesOfThree(x: Channel, y: Channel, z: Channel)
    ensures Names([x, y, z]) == [x.name, y.name, z.name]
  {
    assert Names([z]) == [z.name] by {
      assert [z][1..] == [];
    }
    assert Names([y, z]) == [y.name, z.name] by {
      assert [y, z][1..] == [z];
    }
    assert [x, y, z][1..] == [y, z];
  }

  lemma ExampleRanking(cs: seq<Channel>)
    requires cs == [Channel("A", 1), Channel("B", 5), Channel("C", 5)]
    ensures Names(SortByPriority(cs)) == ["B", "C", "A"]
  {
    SortThree(cs[0], cs[1], cs[2]);
    NamesOfThree(cs[1], cs[2], cs[0]);
  }

  /** A lower-priority row followed by two rows of equal, higher priority. */
  lemma SortThree(a: Channel, b: Channel, c: Channel)
    requires a.priority < b.priority == c.priority
    ensures SortByPriority([a, b, c]) == [b, c, a]
  {
    ThreeLiterals(a, b, c);
    SortTwo(b, c);
    SortBehindSorted(a, [b, c]);
  }

  lemma ThreeLiterals(a: Channel, b: Channel, c: Channel)
    ensures [a] + [b, c] == [a, b, c]
    ensures [b, c] + [a] == [b, c, a]
  {
  }

  lemma SortTwo(b: Channel, c: Channel)
    requires b.priority >= c.priority
    ensures SortByPriority([b, c]) == [b, c]
  {
    SortSingle(c);
    SortCons(b, [c]);
    InsertFront(b, [c]);
    assert [b] + [c] == [b, c];
  }
}
