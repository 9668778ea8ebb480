/** The INI dialect of Config::parseINI: as the parser reads it (lines, trimming, a section carried
    from line to line), and as a grammar of layouts, each with a printer and a meaning. */
module Ini {
  import opened Strings

  const LINE_BLANKS: set<char> := {' ', '\t', '\r', '\n'}
  const PAIR_BLANKS: set<char> := {' ', '\t'}
  /** What may surround the text of a line: the line blanks but for the newline that ends it. */
  const MARGIN: set<char> := {' ', '\t', '\r'}

  type Configs = map<string, string>

  // ---------------------------------------------------------------- the parser

  /** The lines std::getline delivers: an unterminated last line counts if it is not empty. */
  function Lines(text: string): seq<string>
    decreases |text|
  {
    if text == [] then []
    else
      var i := Find(text, '\n');
      if i == |text| then [text] else [text[..i]] + Lines(text[i + 1..])
  }

  function FullKey(section: string, key: string): string {
    if section == [] then key else section + "." + key
  }

  predicate IsIgnored(line: string) {
    line == [] || line[0] == '#' || line[0] == ';'
  }

  predicate IsHeader(line: string) {
    line != [] && line[0] == '[' && line[|line| - 1] == ']'
  }

  /** The loop body of parseINI. */
  function LineStep(section: string, configs: Configs, line: string): (string, Configs) {
    var l := Trim(line, LINE_BLANKS);
    if IsIgnored(l) then (section, configs)
    else if IsHeader(l) then (l[1..|l| - 1], configs)
    else
      var pos := Find(l, '=');
      if pos == |l| then (section, configs)
      else
        var key := Trim(l[..pos], PAIR_BLANKS);
        var value := Trim(l[pos + 1..], PAIR_BLANKS);
        (section, configs[FullKey(section, key) := value])
  }

  function ParseLines(section: string, configs: Configs, lines: seq<string>): (string, Configs)
    decreases |lines|
  {
    if lines == [] then (section, configs)
    else
      var (section', configs') := LineStep(section, configs, lines[0]);
      ParseLines(section', configs', lines[1..])
  }

  function Parse(text: string): Configs {
    ParseLines("", map[], Lines(text)).1
  }

  // ---------------------------------------------------------------- the grammar

  /** One line of a layout, with everything the parser discards. */
  datatype Item =
    | Blank(pad: string)
    | Comment(lead: string, mark: char, text: string)
    | Header(lead: string, name: string, trail: string)
    | Entry(lead: string, key: string, before: string, after: string, value: string, trail: string)
    | Junk(lead: string, text: string, trail: string)

  function Core(item: Item): string {
    match item
    case Blank(_) => []
    case Comment(_, mark, text) => [mark] + text
    case Header(_, name, _) => "[" + name + "]"
    case Entry(_, key, before, after, value, _) => key + before + "=" + after + value
    case Junk(_, text, _) => text
  }

  function PrintItem(item: Item): string {
    match item
    case Blank(pad) => pad
    case Comment(lead, mark, text) => lead + Core(item)
    case Header(lead, name, trail) => lead + Core(item) + trail
    case Entry(lead, key, before, after, value, trail) => lead + Core(item) + trail
    case Junk(lead, text, trail) => lead + Core(item) + trail
  }

  /** The layouts of the grammar. Keys and values are arbitrary but for the blanks that would be
      trimmed off, '=' in a key, and the shapes that make the line a comment or a header. */
  predicate WellFormed(item: Item) {
    && '\n' !in PrintItem(item)
    && match item
       case Blank(pad) => AllIn(pad, MARGIN)
       case Comment(lead, mark, text) => AllIn(lead, MARGIN) && (mark == '#' || mark == ';')
       case Header(lead, name, trail) => AllIn(lead, MARGIN) && AllIn(trail, MARGIN)
       case Entry(lead, key, before, after, value, trail) =>
         && AllIn(lead, MARGIN) && AllIn(trail, MARGIN)
         && AllIn(before, PAIR_BLANKS) && AllIn(after, PAIR_BLANKS)
         && Tight(key, PAIR_BLANKS) && Tight(value, PAIR_BLANKS)
         && '=' !in key
         && (key != [] ==> key[0] != '\r' && key[0] != '#' && key[0] != ';')
         && (value != [] ==> value[|value| - 1] != '\r')
         && (value == [] ==> after == [])
         && (key == [] ==> before == [])
         && !IsHeader(Core(item))
       case Junk(lead, text, trail) =>
         && AllIn(lead, MARGIN) && AllIn(trail, MARGIN) && Tight(text, LINE_BLANKS)
         && !IsIgnored(text) && !IsHeader(text) && '=' !in text
  }

  /** What a line of a layout means: a header opens its section, an entry sets its key. */
  function Means(section: string, configs: Configs, item: Item): (string, Configs) {
    match item
    case Header(_, name, _) => (name, configs)
    case Entry(_, key, _, _, value, _) => (section, configs[FullKey(section, key) := value])
    case _ => (section, configs)
  }

  /** The last entry for a key in a section wins. */
  function Meaning(section: string, configs: Configs, items: seq<Item>): (string, Configs)
    decreases |items|
  {
    if items == [] then (section, configs)
    else
      var (section', configs') := Means(section, configs, items[0]);
      Meaning(section', configs', items[1..])
  }

  function PrintLines(items: seq<Item>): string {
    if items == [] then [] else PrintItem(items[0]) + "\n" + PrintLines(items[1..])
  }

  ghost predicate AllWellFormed(items: seq<Item>) {
    forall i :: 0 <= i < |items| ==> WellFormed(items[i])
  }

  // ---------------------------------------------------------------- the parser reads every layout

  /** After the line trim, exactly the core of a layout line is left. */
  lemma TrimmedToCore(item: Item)
    requires WellFormed(item) && !item.Comment?
    ensures Trim(PrintItem(item), LINE_BLANKS) == Core(item)
  {
    match item
    case Blank(pad) =>
      assert pad == pad + [] + [];
      TrimPadded(pad, [], [], LINE_BLANKS);
    case Header(lead, name, trail) => TrimPadded(lead, Core(item), trail, LINE_BLANKS);
    case Entry(lead, key, before, after, value, trail) =>
      EntryCoreIsTight(item);
      TrimPadded(lead, Core(item), trail, LINE_BLANKS);
    case Junk(lead, text, trail) => TrimPadded(lead, text, trail, LINE_BLANKS);
    case Comment(_, _, _) =>
  }

  lemma EntryCoreIsTight(item: Item)
    requires WellFormed(item) && item.Entry?
    ensures Tight(Core(item), LINE_BLANKS) && Core(item) != [] && !IsIgnored(Core(item))
    ensures Core(item) == (item.key + item.before) + "=" + (item.after + item.value)
    ensures '=' !in item.key + item.before
  {
    var core := Core(item);
    var line := PrintItem(item);
    assert forall i :: 0 <= i < |core| ==> core[i] == line[|item.lead| + i];
    assert core[0] == if item.key == [] then '=' else item.key[0];
    assert core[|core| - 1] == if item.value == [] then '=' else item.value[|item.value| - 1];
  }

  lemma EntryStep(item: Item, section: string, configs: Configs)
    requires WellFormed(item) && item.Entry?
    ensures LineStep(section, configs, PrintItem(item)) == Means(section, configs, item)
  {
    TrimmedToCore(item);
    EntryCoreIsTight(item);
    var left, right := item.key + item.before, item.after + item.value;
    FindFirst(left, '=', right);
    var l := Core(item);
    assert l[..|left|] == left && l[|left| + 1..] == right;
    assert left == [] + item.key + item.before;
    TrimPadded([], item.key, item.before, PAIR_BLANKS);
    assert right == item.after + item.value + [];
    TrimPadded(item.after, item.value, [], PAIR_BLANKS);
  }

  lemma CommentStep(item: Item)
    requires WellFormed(item) && item.Comment?
    ensures IsIgnored(Trim(PrintItem(item), LINE_BLANKS))
  {
    var s := Core(item);
    TrimLeftPadded(item.lead, s, LINE_BLANKS);
    var trail := TrimRightSplits(s, LINE_BLANKS);
    var t := TrimRight(s, LINE_BLANKS);
    assert t != [] ==> t[0] == s[0];
  }

  /** The parser's step on a printed line is the meaning of the line. */
  lemma ItemStep(item: Item, section: string, configs: Configs)
    requires WellFormed(item)
    ensures LineStep(section, configs, PrintItem(item)) == Means(section, configs, item)
  {
    match item
    case Entry(_, _, _, _, _, _) => EntryStep(item, section, configs);
    case Comment(_, _, _) => CommentStep(item);
    case Header(_, name, _) =>
      TrimmedToCore(item);
      var l := Core(item);
      assert l[1..|l| - 1] == name;
    case Blank(_) => TrimmedToCore(item);
    case Junk(_, text, _) =>
      TrimmedToCore(item);
      FindNone(text, '=');
  }

  lemma LinesCons(line: string, rest: string)
    requires '\n' !in line
    ensures Lines(line + "\n" + rest) == [line] + Lines(rest)
  {
    var text := line + "\n" + rest;
    FindFirst(line, '\n', rest);
    assert text[..|line|] == line && text[|line| + 1..] == rest;
  }

  lemma LinesLast(line: string)
    requires '\n' !in line
    ensures Lines(line) == if line == [] then [] else [line]
  {
    FindNone(line, '\n');
  }

  /** Completeness: from any section and map, parsing a printed layout whose last line may lack its
      newline yields exactly the layout's meaning. */
  lemma {:induction false} ParsesLayout(section: string, configs: Configs, items: seq<Item>, last: Item)
    requires AllWellFormed(items) && WellFormed(last)
    ensures ParseLines(section, configs, Lines(PrintLines(items) + PrintItem(last)))
            == Meaning(section, configs, items + [last])
    decreases |items|
  {
    if items == [] {
      assert PrintLines(items) + PrintItem(last) == PrintItem(last);
      assert items + [last] == [last];
      LinesLast(PrintItem(last));
      ItemStep(last, section, configs);
      assert Meaning(section, configs, [last]) == Means(section, configs, last);
    } else {
      var line, rest := PrintItem(items[0]), PrintLines(items[1..]) + PrintItem(last);
      assert PrintLines(items) + PrintItem(last) == line + "\n" + rest;
      LinesCons(line, rest);
      ItemStep(items[0], section, configs);
      var (section', configs') := Means(section, configs, items[0]);
      assert ([line] + Lines(rest))[1..] == Lines(rest);
      assert (items + [last])[0] == items[0] && (items + [last])[1..] == items[1..] + [last];
      ParsesLayout(section', configs', items[1..], last);
    }
  }

  // ---------------------------------------------------------------- every text is a layout

  lemma NoNewlineInPart(a: string, b: string, c: string)
    requires '\n' !in a + b + c
    ensures '\n' !in a && '\n' !in b && '\n' !in c
  {
    assert forall i :: 0 <= i < |a| ==> a[i] == (a + b + c)[i];
    assert forall i :: 0 <= i < |b| ==> b[i] == (a + b + c)[|a| + i];
    assert forall i :: 0 <= i < |c| ==> c[i] == (a + b + c)[|a| + |b| + i];
  }

  lemma BlankIsMargin(s: string)
    requires AllIn(s, LINE_BLANKS) && '\n' !in s
    ensures AllIn(s, MARGIN)
  {
  }

  /** Every line has a layout: the grammar covers everything the parser can be given. */
  lemma LineHasLayout(line: string) returns (item: Item)
    requires '\n' !in line
    ensures WellFormed(item) && PrintItem(item) == line
  {
    var lead, trail := TrimSplits(line, LINE_BLANKS);
    var l := Trim(line, LINE_BLANKS);
    NoNewlineInPart(lead, l, trail);
    BlankIsMargin(lead);
    BlankIsMargin(trail);
    if l == [] {
      item := Blank(line);
    } else if l[0] == '#' || l[0] == ';' {
      item := Comment(lead, l[0], l[1..] + trail);
      assert [l[0]] + (l[1..] + trail) == l + trail;
      assert lead + (l + trail) == line;
    } else if IsHeader(l) {
      item := Header(lead, l[1..|l| - 1], trail);
      assert "[" + l[1..|l| - 1] + "]" == l;
    } else if '=' !in l {
      item := Junk(lead, l, trail);
    } else {
      item := EntryLayout(lead, l, trail);
    }
  }

  lemma EntryLayout(lead: string, l: string, trail: string) returns (item: Item)
    requires AllIn(lead, MARGIN) && AllIn(trail, MARGIN) && Tight(l, LINE_BLANKS)
    requires '\n' !in lead + l + trail
    requires '=' in l && !IsIgnored(l) && !IsHeader(l)
    ensures WellFormed(item) && PrintItem(item) == lead + l + trail
  {
    hide TrimLeft, TrimRight, Trim, Tight, AllIn, IsIgnored, IsHeader;
    FindNone(l, '=');
    var pos := Find(l, '=');
    var left, right := l[..pos], l[pos + 1..];
    var keyLead, before := TrimSplits(left, PAIR_BLANKS);
    var after, valueTrail := TrimSplits(right, PAIR_BLANKS);
    var key, value := Trim(left, PAIR_BLANKS), Trim(right, PAIR_BLANKS);
    assert left == keyLead + (key + before) && right == (after + value) + valueTrail;
    FrontEdge(keyLead, key + before, l, left);
    BackEdge(after + value, valueTrail, l, right);
    EmptyKeyEdge(before, l, left, key);
    EmptyValueEdge(after, l, right, value);
    assert l == left + "=" + right;
    item := EntryFromParts(lead, key, before, after, value, trail, l);
  }

  lemma EntryFromParts(lead: string, key: string, before: string, after: string, value: string,
                       trail: string, l: string) returns (item: Item)
    requires l == (key + before) + "=" + (after + value) && '\n' !in lead + l + trail
    requires Tight(l, LINE_BLANKS) && !IsIgnored(l) && !IsHeader(l) && '=' !in key + before
    requires AllIn(lead, MARGIN) && AllIn(trail, MARGIN)
    requires AllIn(before, PAIR_BLANKS) && AllIn(after, PAIR_BLANKS)
    requires Tight(key, PAIR_BLANKS) && Tight(value, PAIR_BLANKS)
    requires (key == [] ==> before == []) && (value == [] ==> after == [])
    ensures WellFormed(item) && PrintItem(item) == lead + l + trail
  {
    item := Entry(lead, key, before, after, value, trail);
    assert Core(item) == l;
    assert forall i :: 0 <= i < |key| ==> key[i] == (key + before)[i];
    assert key != [] ==> key[0] == l[0];
    assert value != [] ==> value[|value| - 1] == l[|l| - 1];
  }

  lemma EmptyKeyEdge(before: string, l: string, left: string, key: string)
    requires left <= l && Tight(l, LINE_BLANKS) && AllIn(before, PAIR_BLANKS) && left == key + before
    ensures key == [] ==> before == []
  {
    if key == [] {
      FrontEdge(before, [], l, left);
    }
  }

  lemma EmptyValueEdge(after: string, l: string, right: string, value: string)
    requires |right| <= |l| && l[|l| - |right|..] == right
    requires Tight(l, LINE_BLANKS) && AllIn(after, PAIR_BLANKS) && right == after + value
    ensures value == [] ==> after == []
  {
    if value == [] {
      BackEdge([], after, l, right);
    }
  }

  /** A tight line's key has no blanks before it, and no key means nothing before the '='. */
  lemma FrontEdge(edge: string, inner: string, l: string, left: string)
    requires left <= l && Tight(l, LINE_BLANKS) && AllIn(edge, PAIR_BLANKS) && left == edge + inner
    ensures edge == []
  {
    assert left != [] ==> left[0] == l[0] && left[0] !in PAIR_BLANKS;
  }

  lemma BackEdge(inner: string, edge: string, l: string, right: string)
    requires |right| <= |l| && l[|l| - |right|..] == right
    requires Tight(l, LINE_BLANKS) && AllIn(edge, PAIR_BLANKS) && right == inner + edge
    ensures edge == []
  {
    assert right != [] ==> right[|right| - 1] == l[|l| - 1] && right[|right| - 1] !in PAIR_BLANKS;
  }

  lemma {:induction false} TextHasLayout(text: string) returns (items: seq<Item>, last: Item)
    ensures AllWellFormed(items) && WellFormed(last)
    ensures text == PrintLines(items) + PrintItem(last)
    decreases |text|
  {
    var i := Find(text, '\n');
    if i == |text| {
      FindNone(text, '\n');
      items := [];
      last := LineHasLayout(text);
    } else {
      var first := LineHasLayout(text[..i]);
      var rest: seq<Item>;
      rest, last := TextHasLayout(text[i + 1..]);
      items := [first] + rest;
      assert text == text[..i] + "\n" + text[i + 1..];
      assert items[1..] == rest;
    }
  }

  /** The grammar is exhaustive and the parser implements it: every text whatever is the printing of
      some layout, and what the parser makes of the text is the meaning of that layout. */
  lemma ParserIsGrammar(text: string)
    ensures exists items, last ::
              && AllWellFormed(items) && WellFormed(last)
              && text == PrintLines(items) + PrintItem(last)
              && Parse(text) == Meaning("", map[], items + [last]).1
  {
    var items, last := TextHasLayout(text);
    ParsesLayout("", map[], items, last);
  }

  // ---------------------------------------------------------------- last write wins, declaratively

  /** The section in force at line i: the last header above it, none at the top. */
  function SectionAt(items: seq<Item>, i: nat): string
    requires i <= |items|
  {
    if i == 0 then ""
    else if items[i - 1].Header? then items[i - 1].name
    else SectionAt(items, i - 1)
  }

  /** Line i sets this key: its own key before any section, else the section's name, a dot and it. */
  predicate Sets(items: seq<Item>, i: nat, fullKey: string)
    requires i < |items|
  {
    && items[i].Entry?
    && var (section, key) := (SectionAt(items, i), items[i].key);
       (section == "" && fullKey == key) || (section != "" && fullKey == section + "." + key)
  }

  /** Line i is the last to set this key. */
  predicate SetsLast(items: seq<Item>, i: nat, fullKey: string)
    requires i < |items|
  {
    Sets(items, i, fullKey) && forall j :: i < j < |items| ==> !Sets(items, j, fullKey)
  }

  lemma {:induction false} MeaningSnoc(section: string, configs: Configs, items: seq<Item>, last: Item)
    ensures var (section', configs') := Meaning(section, configs, items);
            Meaning(section, configs, items + [last]) == Means(section', configs', last)
    decreases |items|
  {
    if items == [] {
      assert items + [last] == [last];
      assert Meaning(section, configs, [last]) == Means(section, configs, last);
    } else {
      var (section', configs') := Means(section, configs, items[0]);
      assert (items + [last])[0] == items[0] && (items + [last])[1..] == items[1..] + [last];
      MeaningSnoc(section', configs', items[1..], last);
    }
  }

  lemma {:induction false} SectionAtPrefix(items: seq<Item>, last: Item, i: nat)
    requires i <= |items|
    ensures SectionAt(items + [last], i) == SectionAt(items, i)
  {
    if i > 0 {
      SectionAtPrefix(items, last, i - 1);
    }
  }

  /** A further line leaves alone what the lines before it set. */
  lemma SetsSnoc(before: seq<Item>, last: Item, fullKey: string)
    ensures SectionAt(before + [last], |before|) == SectionAt(before, |before|)
    ensures forall i :: 0 <= i < |before| ==> Sets(before + [last], i, fullKey) == Sets(before, i, fullKey)
  {
    forall i | 0 <= i <= |before| ensures SectionAt(before + [last], i) == SectionAt(before, i) {
      SectionAtPrefix(before, last, i);
    }
  }

  /** Whether and to what the lines set the key, as the map has it. */
  ghost predicate HasLast(items: seq<Item>, fullKey: string, configs: Configs) {
    && (fullKey in configs <==> exists i :: 0 <= i < |items| && Sets(items, i, fullKey))
    && (forall i :: 0 <= i < |items| && SetsLast(items, i, fullKey) ==>
          fullKey in configs && configs[fullKey] == items[i].value)
  }

  lemma HasLastSnoc(before: seq<Item>, last: Item, fullKey: string, configs: Configs, configs': Configs)
    requires HasLast(before, fullKey, configs)
    requires if Sets(before + [last], |before|, fullKey) then fullKey in configs' && configs'[fullKey] == last.value
             else if fullKey in configs then fullKey in configs' && configs'[fullKey] == configs[fullKey]
             else fullKey !in configs'
    ensures HasLast(before + [last], fullKey, configs')
  {
    SetsSnoc(before, last, fullKey);
    hide Sets;
    var items, n := before + [last], |before|;
    forall i | 0 <= i < n && SetsLast(items, i, fullKey) ensures SetsLast(before, i, fullKey) {
      assert Sets(items, i, fullKey);
    }
    if fullKey in configs {
      var i :| 0 <= i < n && Sets(before, i, fullKey);
      assert Sets(items, i, fullKey);
    }
  }

  /** The meaning of a layout, said without a fold: a key is present exactly when some line sets it,
      and its value is that of the last line that does. */
  lemma {:induction false} LastEntryWins(items: seq<Item>, fullKey: string)
    ensures Meaning("", map[], items).0 == SectionAt(items, |items|)
    ensures fullKey in Meaning("", map[], items).1 <==> exists i :: 0 <= i < |items| && Sets(items, i, fullKey)
    ensures forall i :: 0 <= i < |items| && SetsLast(items, i, fullKey) ==>
              fullKey in Meaning("", map[], items).1 && Meaning("", map[], items).1[fullKey] == items[i].value
    decreases |items|
  {
    if items != [] {
      var n := |items| - 1;
      var before, last := items[..n], items[n];
      assert before + [last] == items;
      LastEntryWins(before, fullKey);
      MeaningSnoc("", map[], before, last);
      SetsSnoc(before, last, fullKey);
      hide SetsLast;
      HasLastSnoc(before, last, fullKey, Meaning("", map[], before).1, Meaning("", map[], items).1);
    }
  }

  // ---------------------------------------------------------------- a plain file, in characters

  predicate SpacesAndTabs(s: string) {
    forall i :: 0 <= i < |s| ==> s[i] == ' ' || s[i] == '\t'
  }

  /** A key as one writes it: no blank at its ends, no '=', and nothing that makes its line special. */
  predicate PlainKey(key: string) {
    && key != [] && '=' !in key && '\n' !in key
    && key[0] !in [' ', '\t', '\r', '#', ';', '[']
    && key[|key| - 1] != ' ' && key[|key| - 1] != '\t'
  }

  predicate PlainValue(value: string) {
    && value != [] && '\n' !in value
    && value[0] != ' ' && value[0] != '\t'
    && value[|value| - 1] != ' ' && value[|value| - 1] != '\t' && value[|value| - 1] != '\r'
  }

  /** An entry by itself sets its key; under a header it sets the section's name, a dot and its key.
      Spaces and tabs around every part, and a carriage return at the end of a line, are dropped. */
  lemma PlainFile(section: string, key: string, value: string, pads: seq<string>, ending: string)
    requires section != "" && '\n' !in section && PlainKey(key) && PlainValue(value)
    requires |pads| == 4 && forall i :: 0 <= i < 4 ==> SpacesAndTabs(pads[i])
    requires ending == "\n" || ending == "\r\n"
    ensures var entry := pads[0] + key + pads[1] + "=" + pads[2] + value + pads[3] + ending;
            && Parse(entry) == map[key := value]
            && Parse(pads[0] + "[" + section + "]" + pads[3] + ending + entry)
               == map[section + "." + key := value]
  {
    var line := Entry(pads[0], key, pads[1], pads[2], value, Before(pads[3], ending));
    var header := Header(pads[0], section, Before(pads[3], ending));
    PlainEntryWellFormed(line);
    PlainHeaderWellFormed(header);
    var top := pads[0] + "[" + section + "]" + pads[3] + ending;
    var entry := pads[0] + key + pads[1] + "=" + pads[2] + value + pads[3] + ending;
    assert entry == PrintItem(line) + "\n";
    assert top == PrintItem(header) + "\n";
    hide Parse, PrintItem, WellFormed;
    EntryParse(line);
    HeaderEntryParse(header, line);
    assert top + entry == PrintItem(header) + "\n" + (PrintItem(line) + "\n");
  }

  /** What ends the line's text, the newline itself apart. */
  function Before(pad: string, ending: string): string {
    if ending == "\r\n" then pad + "\r" else pad
  }

  lemma PlainHeaderWellFormed(item: Item)
    requires item.Header? && '\n' !in item.name
    requires SpacesAndTabs(item.lead) && PlainTrail(item.trail)
    ensures WellFormed(item)
  {
  }

  /** Spaces and tabs, then perhaps a carriage return. */
  predicate PlainTrail(s: string) {
    forall i :: 0 <= i < |s| ==> s[i] == ' ' || s[i] == '\t' || s[i] == '\r'
  }

  lemma PlainEntryWellFormed(item: Item)
    requires item.Entry? && PlainKey(item.key) && PlainValue(item.value)
    requires SpacesAndTabs(item.lead) && SpacesAndTabs(item.before) && SpacesAndTabs(item.after)
    requires PlainTrail(item.trail)
    ensures WellFormed(item)
  {
    assert Core(item)[0] == item.key[0];
  }

  lemma MeaningCons(section: string, configs: Configs, item: Item, rest: seq<Item>)
    ensures var (section', configs') := Means(section, configs, item);
            Meaning(section, configs, [item] + rest) == Meaning(section', configs', rest)
  {
    assert ([item] + rest)[1..] == rest;
  }

  lemma EntryParse(line: Item)
    requires WellFormed(line) && line.Entry?
    ensures Parse(PrintItem(line) + "\n") == map[line.key := line.value]
  {
    PrintCons(line, []);
    LinesParse([line]);
    hide Meaning, PrintItem, WellFormed, Parse;
    EntryMeaning("", line);
    assert PrintItem(line) + "\n" + "" == PrintItem(line) + "\n";
  }

  lemma HeaderEntryParse(header: Item, line: Item)
    requires WellFormed(header) && WellFormed(line) && header.Header? && line.Entry? && header.name != ""
    ensures Parse(PrintItem(header) + "\n" + (PrintItem(line) + "\n"))
            == map[header.name + "." + line.key := line.value]
  {
    PrintCons(header, [line]);
    PrintCons(line, []);
    LinesParse([header, line]);
    hide Meaning, PrintItem, WellFormed, Parse;
    EntryMeaning(header.name, line);
    assert [header, line] + [Blank("")] == [header] + ([line] + [Blank("")]);
    MeaningCons("", map[], header, [line] + [Blank("")]);
    assert PrintItem(line) + "\n" + "" == PrintItem(line) + "\n";
  }

  lemma EntryMeaning(section: string, line: Item)
    requires line.Entry?
    ensures Meaning(section, map[], [line] + [Blank("")]).1
            == map[(if section == "" then line.key else section + "." + line.key) := line.value]
  {
    var configs: Configs := map[];
    MeaningCons(section, configs, line, [Blank("")]);
    var (section', configs') := Means(section, configs, line);
    assert [Blank("")] + [] == [Blank("")];
    MeaningCons(section', configs', Blank(""), []);
  }

  lemma PrintCons(item: Item, rest: seq<Item>)
    ensures PrintLines([item] + rest) == PrintItem(item) + "\n" + PrintLines(rest)
    ensures PrintLines([]) == "" && [item] + [] == [item]
  {
    assert ([item] + rest)[1..] == rest;
  }

  /** Parsing complete lines. */
  lemma LinesParse(items: seq<Item>)
    requires AllWellFormed(items)
    ensures Parse(PrintLines(items)) == Meaning("", map[], items + [Blank("")]).1
  {
    assert WellFormed(Blank(""));
    ParsesLayout("", map[], items, Blank(""));
    assert PrintLines(items) + PrintItem(Blank("")) == PrintLines(items);
  }

  // ---------------------------------------------------------------- laws

  lemma {:induction false} ParseLinesConcat(section: string, configs: Configs, a: seq<string>, b: seq<string>)
    ensures var (section', configs') := ParseLines(section, configs, a);
            ParseLines(section, configs, a + b) == ParseLines(section', configs', b)
    decreases |a|
  {
    if a == [] {
      assert a + b == b;
    } else {
      var (section', configs') := LineStep(section, configs, a[0]);
      assert (a + b)[1..] == a[1..] + b;
      ParseLinesConcat(section', configs', a[1..], b);
    }
  }

  /** What a line does to the map does not depend on the map, nor its section. */
  lemma StepOverrides(section: string, configs: Configs, line: string)
    ensures LineStep(section, configs, line).0 == LineStep(section, map[], line).0
    ensures LineStep(section, configs, line).1 == configs + LineStep(section, map[], line).1
  {
  }

  lemma {:induction false} LinesOverride(section: string, configs: Configs, lines: seq<string>)
    ensures ParseLines(section, configs, lines).0 == ParseLines(section, map[], lines).0
    ensures ParseLines(section, configs, lines).1 == configs + ParseLines(section, map[], lines).1
    decreases |lines|
  {
    if lines != [] {
      StepOverrides(section, configs, lines[0]);
      var (section', configs') := LineStep(section, configs, lines[0]);
      var (_, entry) := LineStep(section, map[], lines[0]);
      LinesOverride(section', configs', lines[1..]);
      LinesOverride(section', entry, lines[1..]);
    }
  }

  /** No key is set before the first section header. */
  predicate SectionFirst(lines: seq<string>)
    decreases |lines|
  {
    lines == [] ||
    var l := Trim(lines[0], LINE_BLANKS);
    if IsIgnored(l) || (!IsHeader(l) && '=' !in l) then SectionFirst(lines[1..])
    else IsHeader(l)
  }

  lemma {:induction false} SectionFirstForgets(section: string, configs: Configs, lines: seq<string>)
    requires SectionFirst(lines)
    ensures ParseLines(section, configs, lines).1 == ParseLines("", configs, lines).1
    decreases |lines|
  {
    if lines != [] {
      var l := Trim(lines[0], LINE_BLANKS);
      FindNone(l, '=');
      if IsIgnored(l) || !IsHeader(l) {
        SectionFirstForgets(section, configs, lines[1..]);
      }
    }
  }

  lemma TerminatedLine(line: string)
    requires '\n' !in line
    ensures Lines(line + "\n") == [line]
  {
    LinesCons(line, []);
    assert line + "\n" + [] == line + "\n";
    assert Lines([]) == [];
  }

  lemma {:induction false} LinesOfJoin(a: string, b: string)
    ensures Lines(a + "\n" + b) == Lines(a + "\n") + Lines(b)
    decreases |a|
  {
    hide Lines;
    var i := Find(a, '\n');
    FindNone(a, '\n');
    if i == |a| {
      LinesCons(a, b);
      TerminatedLine(a);
    } else {
      var line, rest := a[..i], a[i + 1..];
      assert a == line + "\n" + rest;
      assert a + "\n" == line + "\n" + (rest + "\n");
      assert a + "\n" + b == line + "\n" + (rest + "\n" + b);
      LinesCons(line, rest + "\n" + b);
      LinesCons(line, rest + "\n");
      LinesOfJoin(rest, b);
    }
  }

  /** A final newline never changes anything. */
  lemma {:induction false} FinalNewline(section: string, configs: Configs, a: string)
    ensures ParseLines(section, configs, Lines(a + "\n")) == ParseLines(section, configs, Lines(a))
    decreases |a|
  {
    var i := Find(a, '\n');
    FindNone(a, '\n');
    if i == |a| {
      LinesCons(a, []);
      assert a + "\n" + [] == a + "\n";
      assert Lines([]) == [];
      assert [a] + [] == [a];
      if a == [] {
        assert LineStep(section, configs, []) == (section, configs);
      }
    } else {
      var line, rest := a[..i], a[i + 1..];
      assert a + "\n" == line + "\n" + (rest + "\n");
      assert a == line + "\n" + rest;
      LinesCons(line, rest + "\n");
      LinesCons(line, rest);
      var (section', configs') := LineStep(section, configs, line);
      assert ([line] + Lines(rest))[1..] == Lines(rest);
      assert ([line] + Lines(rest + "\n"))[1..] == Lines(rest + "\n");
      FinalNewline(section', configs', rest);
    }
  }

  /** Composition: appending a text that opens a section before its first key overrides the first
      text's map by its own. */
  lemma ParseComposes(a: string, b: string)
    requires SectionFirst(Lines(b))
    ensures Parse(a + "\n" + b) == Parse(a) + Parse(b)
  {
    LinesOfJoin(a, b);
    FinalNewline("", map[], a);
    ParseLinesConcat("", map[], Lines(a + "\n"), Lines(b));
    var (section, configs) := ParseLines("", map[], Lines(a));
    SectionFirstForgets(section, configs, Lines(b));
    LinesOverride("", configs, Lines(b));
  }

  /** Unix line ends turned into DOS ones. */
  function WithCarriageReturns(text: string): string {
    if text == [] then []
    else (if text[0] == '\n' then "\r\n" else [text[0]]) + WithCarriageReturns(text[1..])
  }

  lemma {:induction false} NoCarriageReturns(line: string)
    requires '\n' !in line
    ensures WithCarriageReturns(line) == line
  {
    if line != [] {
      NoCarriageReturns(line[1..]);
    }
  }

  lemma {:induction false} CarriageReturnLine(line: string, rest: string)
    requires '\n' !in line
    ensures WithCarriageReturns(line + "\n" + rest) == (line + "\r") + "\n" + WithCarriageReturns(rest)
    decreases |line|
  {
    var text := line + "\n" + rest;
    if line == [] {
      assert text == "\n" + rest && text[1..] == rest;
    } else {
      CarriageReturnLine(line[1..], rest);
      assert text[1..] == line[1..] + "\n" + rest;
      assert WithCarriageReturns(text) == [line[0]] + WithCarriageReturns(text[1..]);
    }
  }

  lemma TrimIgnoresCarriageReturn(line: string)
    ensures Trim(line + "\r", LINE_BLANKS) == Trim(line, LINE_BLANKS)
  {
    var lead, trail := TrimSplits(line, LINE_BLANKS);
    var l := Trim(line, LINE_BLANKS);
    assert line + "\r" == lead + l + (trail + "\r");
    TrimPadded(lead, l, trail + "\r", LINE_BLANKS);
  }

  lemma StepIgnoresCarriageReturn(section: string, configs: Configs, line: string)
    ensures LineStep(section, configs, line + "\r") == LineStep(section, configs, line)
  {
    TrimIgnoresCarriageReturn(line);
  }

  lemma {:induction false} CarriageReturnsFrom(section: string, configs: Configs, text: string)
    ensures ParseLines(section, configs, Lines(WithCarriageReturns(text)))
            == ParseLines(section, configs, Lines(text))
    decreases |text|
  {
    hide LineStep;
    var i := Find(text, '\n');
    FindNone(text, '\n');
    if i == |text| {
      NoCarriageReturns(text);
    } else {
      var line, rest := text[..i], text[i + 1..];
      assert text == line + "\n" + rest;
      CarriageReturnLine(line, rest);
      LinesCons(line, rest);
      LinesCons(line + "\r", WithCarriageReturns(rest));
      StepIgnoresCarriageReturn(section, configs, line);
      var (section', configs') := LineStep(section, configs, line);
      CarriageReturnsFrom(section', configs', rest);
      assert ([line] + Lines(rest))[1..] == Lines(rest);
      assert ([line + "\r"] + Lines(WithCarriageReturns(rest)))[1..] == Lines(WithCarriageReturns(rest));
    }
  }

  /** DOS line ends give the same configuration as Unix ones. */
  lemma CarriageReturnsIgnored(text: string)
    ensures Parse(WithCarriageReturns(text)) == Parse(text)
  {
    CarriageReturnsFrom("", map[], text);
  }
}
