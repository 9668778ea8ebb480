/** The configuration store: the parser's loop over the text in place, and the typed accessors. */
module ConfigStore {
  import opened Common
  import opened Strings
  import opened Ini
  import opened Decimal

  /** getValue: a missing key and an empty value read the same. */
  function ValueOf(configs: Configs, key: string): string {
    if key in configs then configs[key] else ""
  }

  function StringOf(configs: Configs, key: string, default: string): string {
    var value := ValueOf(configs, key);
    if value == "" then default else value
  }

  function IntOf(configs: Configs, key: string, default: Int): Int {
    var value := ValueOf(configs, key);
    if value == "" then default
    else match Stoi(value)
         case Some(n) => n
         case None => default
  }

  function Lower(s: string): (t: string)
    ensures |t| == |s|
  {
    if s == "" then ""
    else [if 'A' <= s[0] <= 'Z' then s[0] + 32 as char else s[0]] + Lower(s[1..])
  }

  function BoolOf(configs: Configs, key: string, default: bool): bool {
    var value := Lower(ValueOf(configs, key));
    if value == "true" || value == "1" || value == "yes" || value == "on" then true
    else if value == "false" || value == "0" || value == "no" || value == "off" then false
    else default
  }

  function BoolText(b: bool): string {
    if b then "true" else "false"
  }

  class Config {
    var configs: Configs

    constructor ()
      ensures configs == map[]
    {
      configs := map[];
    }

    function GetString(key: string, default: string): (value: string)
      reads this
      ensures key !in configs || configs[key] == "" ==> value == default
      ensures key in configs && configs[key] != "" ==> value == configs[key]
    {
      StringOf(configs, key, default)
    }

    function GetInt(key: string, default: Int): (n: Int)
      reads this
      ensures key !in configs || configs[key] == "" ==> n == default
      ensures key in configs ==> forall m: Int :: Denotes(configs[key], m) ==> n == m
    {
      IntsDenoted(configs, key, default);
      IntOf(configs, key, default)
    }

    function GetBool(key: string, default: bool): (b: bool)
      reads this
      ensures key !in configs || configs[key] == "" ==> b == default
      ensures key in configs && SaysYes(configs[key]) ==> b
      ensures key in configs && SaysNo(configs[key]) ==> !b
    {
      BoolOfExact(configs, key, default);
      BoolOf(configs, key, default)
    }

    predicate HasKey(key: string)
      reads this
    {
      key in configs
    }

    method SetString(key: string, value: string)
      modifies this
      ensures configs == old(configs)[key := value]
      ensures forall default :: GetString(key, default) == if value == "" then default else value
    {
      configs := configs[key := value];
    }

    method SetInt(key: string, value: Int)
      modifies this
      ensures configs == old(configs)[key := ToString(value)]
      ensures forall default :: GetInt(key, default) == value
    {
      configs := configs[key := ToString(value)];
      forall default ensures GetInt(key, default) == value {
        IntRoundTrip(old(configs), key, value, default);
      }
    }

    method SetBool(key: string, value: bool)
      modifies this
      ensures configs == old(configs)[key := if value then "true" else "false"]
      ensures forall default :: GetBool(key, default) == value
    {
      configs := configs[key := BoolText(value)];
      BoolTextLower(value);
    }

    /** parseINI: the previous contents are dropped, and the result depends on the text alone. */
    method ParseIni(content: string)
      modifies this
      ensures configs == Parse(content)
    {
      configs := map[];
      var section := "";
      var pos := 0;
      assert content[0..] == content;
      while pos < |content|
        invariant 0 <= pos <= |content|
        invariant ParseLines(section, configs, Lines(content[pos..])).1 == Parse(content)
      {
        hide LineStep, Trim, Find;
        var end := LineEnd(content, pos);
        var line := content[pos..end];
        ghost var rest := content[pos..];
        GetLine(content, pos, end);
        ghost var section0, configs0 := section, configs;
        section, configs := ReadLine(section, configs, line);
        assert Lines(rest)[1..] == Lines(if end == |content| then [] else content[end + 1..]);
        pos := if end == |content| then end else end + 1;
        assert content[|content|..] == [];
        assert ParseLines(section0, configs0, Lines(rest)) == ParseLines(section, configs, Lines(rest)[1..]);
      }
    }

    /** Where std::getline stops. */
    method LineEnd(content: string, pos: nat) returns (end: nat)
      requires pos < |content|
      ensures pos <= end <= |content|
      ensures '\n' !in content[pos..end]
      ensures end < |content| ==> content[end] == '\n'
    {
      end := pos;
      while end < |content| && content[end] != '\n'
        invariant pos <= end <= |content|
        invariant '\n' !in content[pos..end]
      {
        assert content[pos..end + 1] == content[pos..end] + [content[end]];
        end := end + 1;
      }
    }

    /** One round of the loop: trim, skip blanks and comments, open a section or set a key. */
    method ReadLine(section: string, configs: Configs, line: string)
      returns (section': string, configs': Configs)
      ensures (section', configs') == LineStep(section, configs, line)
    {
      section', configs' := section, configs;
      var l := Trim(line, LINE_BLANKS);
      if l == "" || l[0] == '#' || l[0] == ';' {
        return;
      }
      if l[0] == '[' && l[|l| - 1] == ']' {
        section' := l[1..|l| - 1];
        return;
      }
      var pos := Find(l, '=');
      if pos != |l| {
        var key, value := l[..pos], l[pos + 1..];
        key, value := Trim(key, PAIR_BLANKS), Trim(value, PAIR_BLANKS);
        var fullKey := if section == "" then key else section + "." + key;
        configs' := configs'[fullKey := value];
      }
    }
  }

  lemma GetLine(content: string, pos: nat, end: nat)
    requires pos < |content| && pos <= end <= |content|
    requires '\n' !in content[pos..end]
    requires end < |content| ==> content[end] == '\n'
    ensures Lines(content[pos..])
            == [content[pos..end]] + Lines(if end == |content| then [] else content[end + 1..])
  {
    var line := content[pos..end];
    if end == |content| {
      assert content[pos..] == line;
      LinesLast(line);
    } else {
      assert content[pos..] == line + "\n" + content[end + 1..];
      LinesCons(line, content[end + 1..]);
    }
  }

  // ---------------------------------------------------------------- laws of the accessors

  /** A missing key and an empty value read as the default, whatever the accessor. */
  lemma MissingReadsDefault(configs: Configs, key: string)
    requires key !in configs || configs[key] == ""
    ensures forall default :: StringOf(configs, key, default) == default
    ensures forall default :: IntOf(configs, key, default) == default
    ensures forall default :: BoolOf(configs, key, default) == default
  {
    assert Lower("") == "";
  }

  /** Any other value reads as itself. */
  lemma PresentReadsValue(configs: Configs, key: string, default: string)
    requires key in configs && configs[key] != ""
    ensures StringOf(configs, key, default) == configs[key]
  {
  }

  /** setInt then getInt, for every int, key and default; no other key reads differently. */
  lemma IntRoundTrip(configs: Configs, key: string, n: Int, default: Int)
    ensures IntOf(configs[key := ToString(n)], key, default) == n
    ensures forall other, d :: other != key ==>
              StringOf(configs[key := ToString(n)], other, d) == StringOf(configs, other, d)
    ensures forall other, d :: other != key ==>
              IntOf(configs[key := ToString(n)], other, d) == IntOf(configs, other, d)
    ensures forall other, d :: other != key ==>
              BoolOf(configs[key := ToString(n)], other, d) == BoolOf(configs, other, d)
  {
    StoiToString(n);
  }

  /** getInt returns the int its value starts with, and the default exactly when there is none:
      key missing, value empty, no digits after the sign, or out of range. */
  lemma IntOfExact(configs: Configs, key: string, default: Int, n: Int)
    ensures IntOf(configs, key, default) == n <==>
            || (key in configs &&
                exists spaces, sign, digits, rest :: ReadsAs(configs[key], n, spaces, sign, digits, rest))
            || (n == default &&
                (key in configs ==>
                   forall m: Int, spaces, sign, digits, rest ::
                     !ReadsAs(configs[key], m, spaces, sign, digits, rest)))
  {
    if key !in configs {
      MissingReadsDefault(configs, key);
      return;
    }
    var value := configs[key];
    assert SpacePrefix("") == 0;
    forall m: Int, spaces, sign, digits, rest | ReadsAs(value, m, spaces, sign, digits, rest)
      ensures Stoi(value) == Some(m)
    {
      ReadsAsStoi(value, m, spaces, sign, digits, rest);
    }
    match Stoi(value)
    case Some(k) =>
      var spaces, sign, digits, rest := StoiReads(value, k);
      assert IntOf(configs, key, default) == k;
    case None =>
      assert IntOf(configs, key, default) == default;
  }

  /** The string reads as this int: blanks, a sign, digits, then anything. */
  ghost predicate Denotes(value: string, m: Int) {
    exists spaces, sign, digits, rest :: ReadsAs(value, m, spaces, sign, digits, rest)
  }

  lemma IntsDenoted(configs: Configs, key: string, default: Int)
    ensures key !in configs || configs[key] == "" ==> IntOf(configs, key, default) == default
    ensures key in configs ==> forall m: Int :: Denotes(configs[key], m) ==> IntOf(configs, key, default) == m
  {
    if key !in configs || configs[key] == "" {
      MissingReadsDefault(configs, key);
    }
    if key in configs {
      forall m: Int | Denotes(configs[key], m) ensures IntOf(configs, key, default) == m {
        IntOfExact(configs, key, default, m);
      }
    }
  }

  /** setString then getString returns the value, unless it is empty and the default is not. */
  lemma StringRoundTrip(configs: Configs, key: string, value: string, default: string)
    ensures StringOf(configs[key := value], key, default) == value <==> value != "" || default == ""
  {
  }

  /** The value is the word, letters of either case. */
  predicate Spells(value: string, word: string) {
    && |value| == |word|
    && forall i :: 0 <= i < |word| ==>
         value[i] == word[i] || ('A' <= value[i] <= 'Z' && value[i] as int + 32 == word[i] as int)
  }

  predicate SaysYes(value: string) {
    Spells(value, "true") || Spells(value, "1") || Spells(value, "yes") || Spells(value, "on")
  }

  predicate SaysNo(value: string) {
    Spells(value, "false") || Spells(value, "0") || Spells(value, "no") || Spells(value, "off")
  }

  lemma {:induction false} LowerAt(s: string, i: nat)
    requires i < |s|
    ensures Lower(s)[i] == if 'A' <= s[i] <= 'Z' then s[i] + 32 as char else s[i]
    decreases |s|
  {
    if i > 0 {
      LowerAt(s[1..], i - 1);
    }
  }

  lemma LowerSpells(value: string, word: string)
    requires forall i :: 0 <= i < |word| ==> !('A' <= word[i] <= 'Z')
    ensures Lower(value) == word <==> Spells(value, word)
  {
    forall i | 0 <= i < |value|
      ensures Lower(value)[i] == if 'A' <= value[i] <= 'Z' then value[i] + 32 as char else value[i]
    {
      LowerAt(value, i);
    }
  }

  /** getBool knows four words for each answer, in either case, and nothing else. */
  lemma BoolOfExact(configs: Configs, key: string, default: bool)
    ensures BoolOf(configs, key, default) ==
            if key in configs && SaysYes(configs[key]) then true
            else if key in configs && SaysNo(configs[key]) then false
            else default
    ensures key in configs ==> !(SaysYes(configs[key]) && SaysNo(configs[key]))
  {
    if key !in configs {
      MissingReadsDefault(configs, key);
      return;
    }
    hide Lower, Spells;
    var v := configs[key];
    LowerSpells(v, "true");
    LowerSpells(v, "1");
    LowerSpells(v, "yes");
    LowerSpells(v, "on");
    LowerSpells(v, "false");
    LowerSpells(v, "0");
    LowerSpells(v, "no");
    LowerSpells(v, "off");
  }

  lemma BoolTextLower(b: bool)
    ensures Lower(BoolText(b)) == BoolText(b)
  {
    assert Lower("true") == "true" by {
      assert Lower("e") == "e" && Lower("ue") == "ue" && Lower("rue") == "rue";
    }
    assert Lower("false") == "false" by {
      assert Lower("e") == "e" && Lower("se") == "se" && Lower("lse") == "lse" && Lower("alse") == "alse";
    }
  }
}
