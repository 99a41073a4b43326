/**
 * The two declarative build-file parsers: `pyproject.toml` gives the
 * `requires` array of its `[build-system]` table, `setup.cfg` the
 * `setup_requires` option of its `[options]` section, split into items.
 * The TOML and INI readers are parameters; their own errors pass through.
 */
module Parsers {
  import opened Wrappers
  import opened Text

  /** A parsed TOML document, as far as it matters here: tables of string arrays. */
  type TomlDocument = map<string, map<string, seq<string>>>

  /** A parsed INI document: sections of options of string values. */
  type IniDocument = map<string, map<string, string>>

  /** A reader's failure, which the parsers do not catch. */
  datatype ParseError = TomlDecodeError(message: string) | ConfigParserError(message: string)

  /**
   * `parse_pyproject_toml`: the `build-system.requires` array, or `[]` when
   * the table or the key is missing; a decoding error propagates.
   */
  function ParsePyprojectToml(loads: string -> Result<TomlDocument, string>, content: string): (r: Result<seq<string>, ParseError>)
    ensures loads(content).Err? ==> r == Err(TomlDecodeError(loads(content).error))
    ensures loads(content).Ok? ==> r.Ok?
    ensures loads(content).Ok? && "build-system" in loads(content).value
              && "requires" in loads(content).value["build-system"]
            ==> r.value == loads(content).value["build-system"]["requires"]
    ensures loads(content).Ok? && !("build-system" in loads(content).value
              && "requires" in loads(content).value["build-system"])
            ==> r.value == []
  {
    match loads(content)
    case Err(e) => Err(TomlDecodeError(e))
    case Ok(doc) =>
      if "build-system" in doc && "requires" in doc["build-system"] then Ok(doc["build-system"]["requires"])
      else Ok([])
  }

  /** The characters `re.split(";|,", ...)` splits at. */
  const Separators: set<char> := {';', ','}

  /** Every item stripped. */
  function StripAll(items: seq<string>): (r: seq<string>)
    ensures |r| == |items|
    ensures forall k :: 0 <= k < |r| ==> r[k] == Strip(items[k])
  {
    if items == [] then [] else [Strip(items[0])] + StripAll(items[1..])
  }

  /** The items of one line of the option value. */
  function LineItems(line: string): (r: seq<string>)
    ensures |r| == CountIn(Strip(line), Separators) + 1
    ensures forall k :: 0 <= k < |r| ==> IsStripped(r[k])
  {
    StripAll(SplitAt(Strip(line), Separators))
  }

  /** The items of several lines, line after line. */
  function ItemsOf(lines: seq<string>): seq<string> {
    if lines == [] then [] else LineItems(lines[0]) + ItemsOf(lines[1..])
  }

  /** Number of items the lines give: one more than their separators, line by line. */
  function ItemCount(lines: seq<string>): nat {
    if lines == [] then 0 else CountIn(lines[0], Separators) + 1 + ItemCount(lines[1..])
  }

  /**
   * The list comprehension of `parse_setup_cfg`: the stripped value is cut
   * into lines, each stripped line is cut at `;` and `,`, and each piece is
   * stripped. Empty pieces are kept.
   */
  function SplitRequirements(value: string): seq<string> {
    ItemsOf(SplitLines(Strip(value)))
  }

  /**
   * `parse_setup_cfg`: the split `options.setup_requires` value, or `[]` when
   * the section or the option is missing; a reading error propagates.
   */
  function ParseSetupCfg(readString: string -> Result<IniDocument, string>, content: string): (r: Result<seq<string>, ParseError>)
    ensures readString(content).Err? ==> r == Err(ConfigParserError(readString(content).error))
    ensures readString(content).Ok? ==> r.Ok?
    ensures readString(content).Ok? && "options" in readString(content).value
              && "setup_requires" in readString(content).value["options"]
            ==> r.value == SplitRequirements(readString(content).value["options"]["setup_requires"])
    ensures readString(content).Ok? && !("options" in readString(content).value
              && "setup_requires" in readString(content).value["options"])
            ==> r.value == []
  {
    match readString(content)
    case Err(e) => Err(ConfigParserError(e))
    case Ok(config) =>
      if "options" in config && "setup_requires" in config["options"] then
        Ok(SplitRequirements(config["options"]["setup_requires"]))
      else Ok([])
  }

  // ------------------------------------------------------------ properties of the split

  /** A line with `n` separators gives `n + 1` items: stripping the line removes only whitespace. */
  lemma LineItemsCount(line: string)
    ensures |LineItems(line)| == CountIn(line, Separators) + 1
  {
    assert !IsSpace(';') && !IsSpace(',');
    StripKeepsCount(line, Separators);
  }

  /** The items of one line hold no separator. */
  lemma LineItemsHaveNoSeparator(line: string)
    ensures forall k, j :: 0 <= k < |LineItems(line)| && 0 <= j < |LineItems(line)[k]| ==> LineItems(line)[k][j] !in Separators
  {
    var pieces := SplitAt(Strip(line), Separators);
    var items := LineItems(line);
    assert items == StripAll(pieces);
    forall k, j | 0 <= k < |items| && 0 <= j < |items[k]|
      ensures items[k][j] !in Separators
    {
      assert items[k] == Strip(pieces[k]);
      assert forall i :: 0 <= i < |pieces[k]| ==> pieces[k][i] !in Separators;
      StripKeepsOut(pieces[k], ';');
      StripKeepsOut(pieces[k], ',');
    }
  }

  /** The items of one line hold no character the line does not hold. */
  lemma LineItemsKeepOut(line: string, c: char)
    requires forall j :: 0 <= j < |line| ==> line[j] != c
    ensures forall k, j :: 0 <= k < |LineItems(line)| && 0 <= j < |LineItems(line)[k]| ==> LineItems(line)[k][j] != c
  {
    StripKeepsOut(line, c);
    SplitAtKeepsOut(Strip(line), Separators, c);
    var pieces := SplitAt(Strip(line), Separators);
    forall k | 0 <= k < |pieces|
      ensures forall j :: 0 <= j < |Strip(pieces[k])| ==> Strip(pieces[k])[j] != c
    {
      StripKeepsOut(pieces[k], c);
    }
  }

  /** Every item is stripped and holds no separator. */
  lemma {:induction false} ItemsAreClean(lines: seq<string>)
    ensures forall k :: 0 <= k < |ItemsOf(lines)| ==> IsStripped(ItemsOf(lines)[k])
    ensures forall k, j :: 0 <= k < |ItemsOf(lines)| && 0 <= j < |ItemsOf(lines)[k]| ==> ItemsOf(lines)[k][j] !in Separators
  {
    if lines != [] {
      ItemsAreClean(lines[1..]);
      LineItemsHaveNoSeparator(lines[0]);
      ConcatClean(LineItems(lines[0]), ItemsOf(lines[1..]));
    }
  }

  lemma ConcatClean(head: seq<string>, tail: seq<string>)
    requires forall k :: 0 <= k < |head| ==> IsStripped(head[k])
    requires forall k, j :: 0 <= k < |head| && 0 <= j < |head[k]| ==> head[k][j] !in Separators
    requires forall k :: 0 <= k < |tail| ==> IsStripped(tail[k])
    requires forall k, j :: 0 <= k < |tail| && 0 <= j < |tail[k]| ==> tail[k][j] !in Separators
    ensures forall k :: 0 <= k < |head + tail| ==> IsStripped((head + tail)[k])
    ensures forall k, j :: 0 <= k < |head + tail| && 0 <= j < |(head + tail)[k]| ==> (head + tail)[k][j] !in Separators
  {
    forall k | |head| <= k < |head + tail| ensures (head + tail)[k] == tail[k - |head|] {}
  }

  /** No piece is dropped: the lines give exactly one item more than they have separators, line by line. */
  lemma {:induction false} ItemsCount(lines: seq<string>)
    ensures |ItemsOf(lines)| == ItemCount(lines)
  {
    if lines != [] {
      var head, tail := lines[0], lines[1..];
      calc {
        |ItemsOf(lines)|;
        |LineItems(head) + ItemsOf(tail)|;
        |LineItems(head)| + |ItemsOf(tail)|;
        { LineItemsCount(head); ItemsCount(tail); }
        CountIn(head, Separators) + 1 + ItemCount(tail);
      }
    }
  }

  /** Items hold no character their lines do not hold; in particular, no item spans a line break. */
  lemma {:induction false} ItemsStayOnOneLine(lines: seq<string>, c: char)
    requires forall i, j :: 0 <= i < |lines| && 0 <= j < |lines[i]| ==> lines[i][j] != c
    ensures forall k, j :: 0 <= k < |ItemsOf(lines)| && 0 <= j < |ItemsOf(lines)[k]| ==> ItemsOf(lines)[k][j] != c
  {
    if lines != [] {
      forall i, j | 0 <= i < |lines[1..]| && 0 <= j < |lines[1..][i]| ensures lines[1..][i][j] != c {
        assert lines[1..][i] == lines[i + 1];
      }
      ItemsStayOnOneLine(lines[1..], c);
      LineItemsKeepOut(lines[0], c);
      ConcatKeepsOut(LineItems(lines[0]), ItemsOf(lines[1..]), c);
    }
  }

  lemma ConcatKeepsOut(head: seq<string>, tail: seq<string>, c: char)
    requires forall k, j :: 0 <= k < |head| && 0 <= j < |head[k]| ==> head[k][j] != c
    requires forall k, j :: 0 <= k < |tail| && 0 <= j < |tail[k]| ==> tail[k][j] != c
    ensures forall k, j :: 0 <= k < |head + tail| && 0 <= j < |(head + tail)[k]| ==> (head + tail)[k][j] != c
  {
    forall k | |head| <= k < |head + tail| ensures (head + tail)[k] == tail[k - |head|] {}
  }

  /** The items of the value: stripped, separator-free, one line each. */
  lemma SplitRequirementsClean(value: string)
    ensures forall k :: 0 <= k < |SplitRequirements(value)| ==> IsStripped(SplitRequirements(value)[k])
    ensures forall k, j :: 0 <= k < |SplitRequirements(value)| && 0 <= j < |SplitRequirements(value)[k]| ==>
              SplitRequirements(value)[k][j] !in Separators && !IsLineBoundary(SplitRequirements(value)[k][j])
  {
    var lines := SplitLines(Strip(value));
    var items := ItemsOf(lines);
    assert SplitRequirements(value) == items;
    ItemsAreClean(lines);
    forall k, j | 0 <= k < |items| && 0 <= j < |items[k]|
      ensures !IsLineBoundary(items[k][j])
    {
      if IsLineBoundary(items[k][j]) {
        ItemsStayOnOneLine(lines, items[k][j]);
      }
    }
  }

  /** A clean item on a line of its own is taken as it is. */
  lemma LineOfOneItem(item: string)
    requires IsStripped(item)
    requires forall j :: 0 <= j < |item| ==> item[j] !in Separators
    ensures LineItems(item) == [item]
  {
    StripKeepsStripped(item);
    SplitAtNoSeparator(item, Separators);
    StripKeepsStripped(item);
  }

  lemma {:induction false} CleanLinesAreItems(items: seq<string>)
    requires forall i :: 0 <= i < |items| ==> IsCleanItem(items[i])
    ensures ItemsOf(items) == items
    decreases |items|
  {
    if items != [] {
      var first, rest := items[0], items[1..];
      forall i | 0 <= i < |rest| ensures IsCleanItem(rest[i]) {
        assert rest[i] == items[i + 1];
      }
      assert IsCleanItem(first);
      LineOfOneItem(first);
      CleanLinesAreItems(rest);
      assert ItemsOf(items) == LineItems(first) + ItemsOf(rest);
      assert items == [first] + rest;
    }
  }

  /**
   * The dangling-list form of `setup.cfg` round-trips: requirements written
   * one per line come back as they were.
   */
  lemma OnePerLineRoundTrip(items: seq<string>)
    requires forall i :: 0 <= i < |items| ==> IsCleanItem(items[i])
    ensures SplitRequirements(Join("\n", items)) == items
  {
    JoinedCleanItemsStripped(items);
    JoinedCleanItemsSplit(items);
    CleanLinesAreItems(items);
    SplitRequirementsOf(Join("\n", items), items);
  }

  lemma JoinedCleanItemsStripped(items: seq<string>)
    requires forall i :: 0 <= i < |items| ==> IsCleanItem(items[i])
    ensures Strip(Join("\n", items)) == Join("\n", items)
  {
    CleanItemsJoinStripped(items);
    StripKeepsStripped(Join("\n", items));
  }

  lemma JoinedCleanItemsSplit(items: seq<string>)
    requires forall i :: 0 <= i < |items| ==> IsCleanItem(items[i])
    ensures SplitLines(Join("\n", items)) == items
  {
    CleanItemsOneLineEach(items);
    SplitLinesJoin(items);
  }

  lemma SplitRequirementsOf(value: string, lines: seq<string>)
    requires Strip(value) == value && SplitLines(value) == lines && ItemsOf(lines) == lines
    ensures SplitRequirements(value) == lines
  {
  }

  lemma CleanItemsJoinStripped(items: seq<string>)
    requires forall i :: 0 <= i < |items| ==> IsCleanItem(items[i])
    ensures IsStripped(Join("\n", items))
  {
    if items != [] {
      JoinEnds("\n", items);
      assert IsCleanItem(items[0]) && IsCleanItem(items[|items| - 1]);
    }
  }

  lemma CleanItemsOneLineEach(items: seq<string>)
    requires forall i :: 0 <= i < |items| ==> IsCleanItem(items[i])
    ensures forall i :: 0 <= i < |items| ==> items[i] != [] && IsStripped(items[i])
    ensures forall i, j :: 0 <= i < |items| && 0 <= j < |items[i]| ==> !IsLineBoundary(items[i][j]) && items[i][j] !in Separators
  {
    forall i, j | 0 <= i < |items| && 0 <= j < |items[i]| ensures !IsLineBoundary(items[i][j]) && items[i][j] !in Separators {
      assert IsCleanItem(items[i]);
    }
  }

  /** A requirement fit to stand as an item: non-empty, stripped, on one line, without separators. */
  predicate IsCleanItem(item: string) {
    && item != [] && IsStripped(item)
    && forall j :: 0 <= j < |item| ==> item[j] !in Separators && !IsLineBoundary(item[j])
  }

  /** A separator between two items splits them. */
  lemma TwoItemsOnOneLine(a: string, sep: char, b: string)
    requires IsCleanItem(a) && IsCleanItem(b) && sep in Separators
    ensures SplitRequirements(a + [sep] + b) == [a, b]
  {
    var s := a + [sep] + b;
    TwoItemsAreOneStrippedLine(a, sep, b);
    WholeValueIsOneLine(s);
    LineOfTwoItems(a, sep, b);
  }

  lemma TwoItemsAreOneStrippedLine(a: string, sep: char, b: string)
    requires IsCleanItem(a) && IsCleanItem(b) && sep in Separators
    ensures IsStripped(a + [sep] + b)
    ensures SplitLines(a + [sep] + b) == [a + [sep] + b]
  {
    var s := a + [sep] + b;
    assert s[0] == a[0] && s[|s| - 1] == b[|b| - 1];
    forall j | 0 <= j < |s| ensures !IsLineBoundary(s[j]) {
      if j < |a| {
        assert s[j] == a[j];
      } else if j > |a| {
        assert s[j] == b[j - |a| - 1];
      }
    }
    SingleLine(s);
  }

  /** A stripped value on a single line gives the items of that line. */
  lemma WholeValueIsOneLine(s: string)
    requires SplitLines(s) == [s] && IsStripped(s)
    ensures SplitRequirements(s) == LineItems(s)
  {
    StripKeepsStripped(s);
    assert ItemsOf([s]) == LineItems(s) + ItemsOf([]);
  }

  lemma LineOfTwoItems(a: string, sep: char, b: string)
    requires IsCleanItem(a) && IsCleanItem(b) && sep in Separators
    requires IsStripped(a + [sep] + b)
    ensures LineItems(a + [sep] + b) == [a, b]
  {
    var s := a + [sep] + b;
    StripKeepsStripped(s);
    TwoPieces(a, sep, b);
    StripKeepsStripped(a);
    StripKeepsStripped(b);
    assert LineItems(s) == StripAll([a, b]);
  }

  lemma TwoPieces(a: string, sep: char, b: string)
    requires IsCleanItem(a) && IsCleanItem(b) && sep in Separators
    ensures SplitAt(a + [sep] + b, Separators) == [a, b]
  {
    SplitAtPiece(a, sep, b, Separators);
    SplitAtNoSeparator(b, Separators);
  }

  /**
   * A comma inside a version specifier splits it too: `foo>=1,<2` gives two
   * items, the second of which is no requirement.
   */
  lemma CommaInSpecifierSplits()
    ensures SplitRequirements("foo>=1,<2") == ["foo>=1", "<2"]
  {
    assert "foo>=1,<2" == "foo>=1" + [','] + "<2";
    TwoItemsOnOneLine("foo>=1", ',', "<2");
  }

  /** The usual `setup_requires =` followed by one requirement per line: the break after `=` is dropped. */
  lemma LeadingBreakIgnored(items: seq<string>)
    requires items != []
    requires forall i :: 0 <= i < |items| ==> IsCleanItem(items[i])
    ensures SplitRequirements("\n" + Join("\n", items)) == items
  {
    JoinEnds("\n", items);
    var joined := Join("\n", items);
    StripLeadingSpace('\n', joined);
    OnePerLineRoundTrip(items);
    StripKeepsStripped(joined);
  }

  // ------------------------------------------------------------ the test-suite documents

  /** The `[build-system]` example gives its array; a document without it gives `[]`. */
  lemma PyprojectExamples(loads: string -> Result<TomlDocument, string>, withTable: string, withoutTable: string)
    requires loads(withTable) == Ok(map["build-system" := map["requires" := ["foo", "bar"]],
                                        "tool.whatever" := map[]])
    requires loads(withoutTable) == Ok(map["tool.whatever" := map[]])
    ensures ParsePyprojectToml(loads, withTable) == Ok(["foo", "bar"])
    ensures ParsePyprojectToml(loads, withoutTable) == Ok([])
  {
  }

  /** The `[options]` example with `setup_requires =` followed by `foo` and `bar` on their own lines. */
  lemma SetupCfgExample(readString: string -> Result<IniDocument, string>, content: string)
    requires readString(content) == Ok(map["metadata" := map["name" := "foo"],
                                           "options" := map["setup_requires" := "\nfoo\nbar"]])
    ensures ParseSetupCfg(readString, content) == Ok(["foo", "bar"])
  {
    var items := ["foo", "bar"];
    assert IsCleanItem("foo") && IsCleanItem("bar");
    assert "\nfoo\nbar" == "\n" + Join("\n", items);
    LeadingBreakIgnored(items);
  }

  /** The example whose `[options]` section only has `install_requires`. */
  lemma SetupCfgWithoutSetupRequires(readString: string -> Result<IniDocument, string>, content: string)
    requires readString(content).Ok? && "options" in readString(content).value
    requires "setup_requires" !in readString(content).value["options"]
    ensures ParseSetupCfg(readString, content) == Ok([])
  {
  }
}
