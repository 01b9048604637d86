/**
 * The field-configuration mini-language (DataGrid.parseConfigurations): comma-separated
 * entries `name=key:value|key:value`, read with JavaScript `split` and two-element
 * destructuring, so only the first two pieces of every split matter and an empty piece
 * (like a missing one) disqualifies its entry or pair.
 */
module FieldConfig {
  import opened Wrappers
  import opened JsText
  import opened JsObjects

  /** The options of one field: trimmed key to trimmed value. */
  type Options = map<string, string>

  /** The parsed configuration: trimmed field name to its options. */
  type Config = map<string, Options>

  /** `const [a, b] = piece.split(sep); if (a && b) ...`: both destructured pieces are non-empty. */
  predicate Kept(piece: string, sep: char) {
    var (a, b) := FirstTwo(piece, sep);
    a != "" && b.Some? && b.value != ""
  }

  /** A kept piece whose first part, trimmed, is `name`: the entry (or pair) that assigns `name`. */
  predicate Assigns(piece: string, sep: char, name: string) {
    Kept(piece, sep) && Trim(FirstTwo(piece, sep).0) == name
  }

  /** The `key:value` pair a piece assigns, trimmed, or nothing when the piece is skipped. */
  function PairEntry(pair: string): Option<(string, string)> {
    var (key, value) := FirstTwo(pair, ':');
    if Kept(pair, ':') then Some((Trim(key), Trim(value.value))) else None
  }

  function PairEntries(pairs: seq<string>): (r: seq<Option<(string, string)>>)
    ensures |r| == |pairs| && forall i :: 0 <= i < |pairs| ==> r[i] == PairEntry(pairs[i])
  {
    seq(|pairs|, i requires 0 <= i < |pairs| => PairEntry(pairs[i]))
  }

  /** `config.split("|").reduce(...)`: the options one entry's option list assigns. */
  function ParsePairs(config: string): Options {
    Assign(PairEntries(Split(config, '|')))
  }

  /** The field an entry assigns, with its parsed options, or nothing when the entry is skipped. */
  function FieldEntry(field: string): Option<(string, Options)> {
    var (fieldName, config) := FirstTwo(field, '=');
    if Kept(field, '=') then Some((Trim(fieldName), ParsePairs(config.value))) else None
  }

  function FieldEntries(fields: seq<string>): (r: seq<Option<(string, Options)>>)
    ensures |r| == |fields| && forall i :: 0 <= i < |fields| ==> r[i] == FieldEntry(fields[i])
  {
    seq(|fields|, i requires 0 <= i < |fields| => FieldEntry(fields[i]))
  }

  /** The configuration a configuration string denotes. */
  function Parsed(configString: string): Config {
    Assign(FieldEntries(Split(configString, ',')))
  }

  /**
   * DataGrid.parseConfigurations: fills `configs` entry by entry. Nothing in its body can
   * throw on a string, so its `catch` is never taken and it always returns the parse.
   */
  method ParseConfigurations(configString: string) returns (configs: Config)
    ensures configs == Parsed(configString)
  {
    configs := map[];
    var fields := Split(configString, ',');
    ghost var entries := FieldEntries(fields);
    var i := 0;
    while i < |fields|
      invariant 0 <= i <= |fields|
      invariant configs == Assign(entries[..i])
    {
      var (fieldName, config) := FirstTwo(fields[i], '=');
      AssignStep(entries, i);
      if fieldName != "" && config.Some? && config.value != "" {
        assert entries[i] == Some((Trim(fieldName), ParsePairs(config.value)));
        configs := configs[Trim(fieldName) := ParsePairs(config.value)];
      } else {
        assert entries[i] == None;
      }
      i := i + 1;
    }
    assert entries[..|fields|] == entries;
  }

  /** `FieldConfigurations?.raw || "{}"`: a missing or empty parameter reads as `"{}"`. */
  function RawOrDefault(raw: Option<string>): (s: string)
    ensures s != ""
    ensures raw.Some? && raw.value != "" ==> s == raw.value
  {
    match raw
    case Some(s) => if s != "" then s else "{}"
    case None => "{}"
  }

  /** Over any list of entries: a name is assigned exactly when some kept entry names it. */
  lemma EntriesKeys(fields: seq<string>, name: string)
    ensures name in Assign(FieldEntries(fields)) <==> exists i :: 0 <= i < |fields| && Assigns(fields[i], '=', name)
  {
    var entries := FieldEntries(fields);
    AssignKeys(entries, name);
    if name in Assign(entries) {
      var i :| AssignsKey(entries, i, name);
      assert entries[i] == FieldEntry(fields[i]);
      assert Assigns(fields[i], '=', name);
    } else {
      forall i | 0 <= i < |fields| ensures !Assigns(fields[i], '=', name) {
        assert entries[i] == FieldEntry(fields[i]);
        assert !AssignsKey(entries, i, name);
      }
    }
  }

  /** Over any list of entries: the last kept entry naming a field decides its options. */
  lemma EntriesValue(fields: seq<string>, i: int)
    requires 0 <= i < |fields| && Kept(fields[i], '=')
    requires forall j :: i < j < |fields| ==> !Assigns(fields[j], '=', Trim(FirstTwo(fields[i], '=').0))
    ensures var name := Trim(FirstTwo(fields[i], '=').0);
      name in Assign(FieldEntries(fields)) &&
      Assign(FieldEntries(fields))[name] == ParsePairs(FirstTwo(fields[i], '=').1.value)
  {
    var entries := FieldEntries(fields);
    var name := Trim(FirstTwo(fields[i], '=').0);
    forall j | i < j < |entries| ensures !AssignsKey(entries, j, name) {
      assert entries[j] == FieldEntry(fields[j]);
    }
    assert entries[i] == FieldEntry(fields[i]);
    AssignLast(entries, i);
  }

  /** Over any list of pairs: a key is set exactly when some kept pair names it. */
  lemma PairListKeys(pairs: seq<string>, key: string)
    ensures key in Assign(PairEntries(pairs)) <==> exists i :: 0 <= i < |pairs| && Assigns(pairs[i], ':', key)
  {
    var entries := PairEntries(pairs);
    AssignKeys(entries, key);
    if key in Assign(entries) {
      var i :| AssignsKey(entries, i, key);
      assert entries[i] == PairEntry(pairs[i]);
      assert Assigns(pairs[i], ':', key);
    } else {
      forall i | 0 <= i < |pairs| ensures !Assigns(pairs[i], ':', key) {
        assert entries[i] == PairEntry(pairs[i]);
        assert !AssignsKey(entries, i, key);
      }
    }
  }

  /** Over any list of pairs: the last kept pair naming a key decides its trimmed value. */
  lemma PairListValue(pairs: seq<string>, i: int)
    requires 0 <= i < |pairs| && Kept(pairs[i], ':')
    requires forall j :: i < j < |pairs| ==> !Assigns(pairs[j], ':', Trim(FirstTwo(pairs[i], ':').0))
    ensures var key := Trim(FirstTwo(pairs[i], ':').0);
      key in Assign(PairEntries(pairs)) &&
      Assign(PairEntries(pairs))[key] == Trim(FirstTwo(pairs[i], ':').1.value)
  {
    var entries := PairEntries(pairs);
    var key := Trim(FirstTwo(pairs[i], ':').0);
    forall j | i < j < |entries| ensures !AssignsKey(entries, j, key) {
      assert entries[j] == PairEntry(pairs[j]);
    }
    assert entries[i] == PairEntry(pairs[i]);
    AssignLast(entries, i);
  }

  /**
   * A field name is configured exactly when some comma-separated entry is kept (non-empty text
   * before its first `=` and between its first and second `=`) and names it once trimmed.
   */
  lemma ParsedKeys(configString: string, fields: seq<string>, name: string)
    requires fields == Split(configString, ',')
    ensures name in Parsed(configString) <==> exists i :: 0 <= i < |fields| && Assigns(fields[i], '=', name)
  {
    EntriesKeys(fields, name);
  }

  /** The last kept entry naming a field decides its options; later duplicates overwrite earlier ones. */
  lemma ParsedValue(configString: string, fields: seq<string>, i: int)
    requires fields == Split(configString, ',')
    requires 0 <= i < |fields| && Kept(fields[i], '=')
    requires forall j :: i < j < |fields| ==> !Assigns(fields[j], '=', Trim(FirstTwo(fields[i], '=').0))
    ensures var name := Trim(FirstTwo(fields[i], '=').0);
      name in Parsed(configString) && Parsed(configString)[name] == ParsePairs(FirstTwo(fields[i], '=').1.value)
  {
    EntriesValue(fields, i);
  }

  /** An option key is set exactly when some `|`-separated pair is kept and names it once trimmed. */
  lemma PairsKeys(config: string, pairs: seq<string>, key: string)
    requires pairs == Split(config, '|')
    ensures key in ParsePairs(config) <==> exists i :: 0 <= i < |pairs| && Assigns(pairs[i], ':', key)
  {
    PairListKeys(pairs, key);
  }

  /** The last kept pair naming a key decides its value, trimmed. */
  lemma PairsValue(config: string, pairs: seq<string>, i: int)
    requires pairs == Split(config, '|')
    requires 0 <= i < |pairs| && Kept(pairs[i], ':')
    requires forall j :: i < j < |pairs| ==> !Assigns(pairs[j], ':', Trim(FirstTwo(pairs[i], ':').0))
    ensures var key := Trim(FirstTwo(pairs[i], ':').0);
      key in ParsePairs(config) && ParsePairs(config)[key] == Trim(FirstTwo(pairs[i], ':').1.value)
  {
    PairListValue(pairs, i);
  }

  /** A name, key or value that survives the round trip: non-empty, trimmed, free of the four separators. */
  predicate Token(s: string) {
    s != "" && !IsTrimmable(s[0]) && !IsTrimmable(s[|s| - 1])
    && ',' !in s && '=' !in s && '|' !in s && ':' !in s
  }

  /** The `key:value` texts of an option list. */
  function PairTexts(pairs: seq<(string, string)>): (texts: seq<string>)
    ensures |texts| == |pairs| && forall i :: 0 <= i < |pairs| ==> texts[i] == pairs[i].0 + ":" + pairs[i].1
  {
    seq(|pairs|, i requires 0 <= i < |pairs| => pairs[i].0 + ":" + pairs[i].1)
  }

  /** The text `key:value|key:value` of an option list. */
  function RenderPairs(pairs: seq<(string, string)>): string
    requires |pairs| >= 1
  {
    Join(PairTexts(pairs), '|')
  }

  /** The `name=options` texts of a configuration. */
  function FieldTexts(fields: seq<(string, seq<(string, string)>)>): (texts: seq<string>)
    requires forall i :: 0 <= i < |fields| ==> |fields[i].1| >= 1
    ensures |texts| == |fields| && forall i :: 0 <= i < |fields| ==> texts[i] == fields[i].0 + "=" + RenderPairs(fields[i].1)
  {
    seq(|fields|, i requires 0 <= i < |fields| && |fields[i].1| >= 1 => fields[i].0 + "=" + RenderPairs(fields[i].1))
  }

  /** The text `name=key:value|...,name=...` of a configuration. */
  function RenderConfig(fields: seq<(string, seq<(string, string)>)>): string
    requires |fields| >= 1 && forall i :: 0 <= i < |fields| ==> |fields[i].1| >= 1
  {
    Join(FieldTexts(fields), ',')
  }

  /** The configuration a list of fields and their option lists stands for. */
  function Listed(fields: seq<(string, seq<(string, string)>)>): (r: seq<(string, Options)>)
    ensures |r| == |fields| && forall i :: 0 <= i < |fields| ==> r[i] == (fields[i].0, AssignAll(fields[i].1))
  {
    seq(|fields|, i requires 0 <= i < |fields| => (fields[i].0, AssignAll(fields[i].1)))
  }

  /** Splitting `a + [sep] + b` once, when neither part holds the separator. */
  lemma SplitTwo(a: string, sep: char, b: string)
    requires sep !in a && sep !in b
    ensures Split(a + [sep] + b, sep) == [a, b]
  {
    SplitJoin([a, b], sep);
  }

  /** `key:value` built from tokens parses back to the pair. */
  lemma PairEntryRendered(key: string, value: string)
    requires Token(key) && Token(value)
    ensures PairEntry(key + ":" + value) == Some((key, value))
  {
    SplitTwo(key, ':', value);
    assert key + ":" + value == key + [':'] + value;
    TrimOfTrimmed(key);
    TrimOfTrimmed(value);
  }

  /** An option list built from tokens parses back to the options it lists. */
  lemma ParsePairsRendered(pairs: seq<(string, string)>)
    requires |pairs| >= 1 && forall i :: 0 <= i < |pairs| ==> Token(pairs[i].0) && Token(pairs[i].1)
    ensures ParsePairs(RenderPairs(pairs)) == AssignAll(pairs)
  {
    var pieces := PairTexts(pairs);
    forall i | 0 <= i < |pieces| ensures '|' !in pieces[i] {
      assert pieces[i] == pairs[i].0 + [':'] + pairs[i].1;
    }
    SplitJoin(pieces, '|');
    var entries := PairEntries(pieces);
    forall i | 0 <= i < |pieces| ensures entries[i] == Some(pairs[i]) {
      PairEntryRendered(pairs[i].0, pairs[i].1);
    }
    assert entries == AllSome(pairs);
  }

  /** No separator other than `:` and `|` occurs in a rendered option list. */
  lemma RenderPairsAvoids(pairs: seq<(string, string)>, c: char)
    requires |pairs| >= 1 && forall i :: 0 <= i < |pairs| ==> Token(pairs[i].0) && Token(pairs[i].1)
    requires c == ',' || c == '='
    ensures c !in RenderPairs(pairs)
  {
    var pieces := PairTexts(pairs);
    forall i | 0 <= i < |pieces| ensures c !in pieces[i] {
      assert pieces[i] == pairs[i].0 + [':'] + pairs[i].1;
    }
    JoinAvoids(pieces, '|', c);
  }

  /** `name=options` built from tokens parses back to the field and its options. */
  lemma FieldEntryRendered(name: string, pairs: seq<(string, string)>)
    requires Token(name)
    requires |pairs| >= 1 && forall i :: 0 <= i < |pairs| ==> Token(pairs[i].0) && Token(pairs[i].1)
    ensures FieldEntry(name + "=" + RenderPairs(pairs)) == Some((name, AssignAll(pairs)))
  {
    var config := RenderPairs(pairs);
    RenderPairsAvoids(pairs, '=');
    SplitTwo(name, '=', config);
    assert name + "=" + config == name + ['='] + config;
    TrimOfTrimmed(name);
    ParsePairsRendered(pairs);
  }

  /** No rendered entry holds a comma. */
  lemma FieldTextsAvoidComma(fields: seq<(string, seq<(string, string)>)>)
    requires forall i :: 0 <= i < |fields| ==>
      Token(fields[i].0) && |fields[i].1| >= 1 &&
      forall j :: 0 <= j < |fields[i].1| ==> Token(fields[i].1[j].0) && Token(fields[i].1[j].1)
    ensures forall i :: 0 <= i < |fields| ==> ',' !in FieldTexts(fields)[i]
  {
    var pieces := FieldTexts(fields);
    forall i | 0 <= i < |pieces| ensures ',' !in pieces[i] {
      RenderPairsAvoids(fields[i].1, ',');
      assert pieces[i] == fields[i].0 + ['='] + RenderPairs(fields[i].1);
    }
  }

  /** Every rendered entry parses back to its field and options. */
  lemma FieldTextsParsed(fields: seq<(string, seq<(string, string)>)>)
    requires forall i :: 0 <= i < |fields| ==>
      Token(fields[i].0) && |fields[i].1| >= 1 &&
      forall j :: 0 <= j < |fields[i].1| ==> Token(fields[i].1[j].0) && Token(fields[i].1[j].1)
    ensures FieldEntries(FieldTexts(fields)) == AllSome(Listed(fields))
  {
    var entries := FieldEntries(FieldTexts(fields));
    var expected := Listed(fields);
    forall i | 0 <= i < |fields| ensures entries[i] == Some(expected[i]) {
      FieldEntryRendered(fields[i].0, fields[i].1);
    }
  }

  /** Round trip: a configuration written out from tokens parses back to what it lists. */
  lemma ParsedRendered(fields: seq<(string, seq<(string, string)>)>)
    requires |fields| >= 1
    requires forall i :: 0 <= i < |fields| ==>
      Token(fields[i].0) && |fields[i].1| >= 1 &&
      forall j :: 0 <= j < |fields[i].1| ==> Token(fields[i].1[j].0) && Token(fields[i].1[j].1)
    ensures Parsed(RenderConfig(fields)) == AssignAll(Listed(fields))
  {
    FieldTextsAvoidComma(fields);
    SplitJoin(FieldTexts(fields), ',');
    FieldTextsParsed(fields);
  }

  /** An option list with no `:` sets no option, since every pair lacks its second piece. */
  lemma PairsWithoutColon(config: string)
    requires ':' !in config
    ensures ParsePairs(config) == map[]
  {
    var pairs := Split(config, '|');
    JoinSplit(config, '|');
    forall i | 0 <= i < |pairs| ensures !Kept(pairs[i], ':') {
      JoinAvoidsInverse(pairs, '|', ':', i);
    }
    forall key ensures key !in ParsePairs(config) {
      PairsKeys(config, pairs, key);
    }
  }

  /**
   * An entry such as `a=x1`, whose option list has no `:`, still configures its field, with no
   * options: only the malformed pairs are dropped, not the entry.
   */
  lemma EntryWithoutColon(name: string, config: string)
    requires Token(name) && config != "" && '=' !in config && ':' !in config
    ensures FieldEntry(name + "=" + config) == Some((name, map[]))
  {
    SplitTwo(name, '=', config);
    assert name + "=" + config == name + ['='] + config;
    TrimOfTrimmed(name);
    PairsWithoutColon(config);
  }

  /** The default parameter text `"{}"` has no `=`, so it configures nothing. */
  lemma ParseDefault()
    ensures Parsed(RawOrDefault(None)) == map[]
    ensures Parsed(RawOrDefault(Some(""))) == map[]
  {
    var s := "{}";
    assert IndexOf(s, ',').None?;
    assert Split(s, ',') == [s];
    assert IndexOf(s, '=').None?;
    assert !Kept(s, '=');
    assert FieldEntries([s]) == [None];
    assert FieldEntries([s])[..0] == [];
  }
}
