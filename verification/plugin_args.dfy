/** The `-plugin_args` option: a flat `key:value[,key:value...]` string
    turned into the keyword map handed to the execution plugin. */
module PluginArgs {
  import opened Results
  import opened Text
  import opened Decimal

  /** A coerced value. A float keeps the text it was parsed from: floating
      point arithmetic is not modelled, only which branch the value took. */
  datatype Value = IntV(i: int) | FloatV(literal: string) | StrV(text: string)

  /** The one exception the parser raises: an entry without exactly one colon. */
  datatype ParseError = IncorrectlyFormatted

  /** The comma-separated entries of the option text. */
  function Entries(s: string): seq<string>
  {
    Split(s, ',')
  }

  /** An entry that `split(':')` cuts into exactly a key and a value. */
  predicate WellFormedEntry(entry: string)
  {
    |Split(entry, ':')| == 2
  }

  /** The text left of the first colon (the whole entry if there is none). */
  function KeyOf(entry: string): string
  {
    Split(entry, ':')[0]
  }

  function ValueOf(entry: string): string
    requires WellFormedEntry(entry)
  {
    Split(entry, ':')[1]
  }

  /** The keys named by a run of entries. */
  function KeysOf(entries: seq<string>): set<string>
  {
    set i | 0 <= i < |entries| :: KeyOf(entries[i])
  }

  /** Entry `i` is the last one naming its key. */
  predicate LastOccurrence(entries: seq<string>, i: nat)
    requires i < |entries|
  {
    forall j :: i < j < |entries| ==> KeyOf(entries[j]) != KeyOf(entries[i])
  }

  /** `int(v)` if that succeeds, else `float(v)` if that succeeds, else `v`
      itself. Whether `float(v)` succeeds is the parameter `isFloat`. */
  function Coerce(v: string, isFloat: string -> bool): (r: Value)
    ensures r.IntV? <==> IsIntLiteral(v)
    ensures r.IntV? ==> ParseInt(v) == Some(r.i)
    ensures r.FloatV? <==> !IsIntLiteral(v) && isFloat(v)
    ensures r.FloatV? ==> r.literal == v
    ensures r.StrV? <==> !IsIntLiteral(v) && !isFloat(v)
    ensures r.StrV? ==> r.text == v
  {
    match ParseInt(v)
    case Some(n) => IntV(n)
    case None => if isFloat(v) then FloatV(v) else StrV(v)
  }

  /** Some entry in the run is not well formed. */
  predicate SomeMalformed(entries: seq<string>)
  {
    exists i :: 0 <= i < |entries| && !WellFormedEntry(entries[i])
  }

  /** The `for arg in ...split(',')` loop: each entry is checked, split into
      key and value, and stored into `acc`, overwriting an earlier value of
      the same key; the first malformed entry raises. It fails exactly when
      some entry is malformed, and on success its keys are the accumulator's
      plus every entry's key. */
  function Loop(entries: seq<string>, acc: map<string, Value>, isFloat: string -> bool)
    : (r: Result<map<string, Value>, ParseError>)
    ensures r.Err? <==> SomeMalformed(entries)
    ensures r.Ok? ==> r.value.Keys == acc.Keys + KeysOf(entries)
    decreases |entries|
  {
    if entries == [] then Ok(acc)
    else if !WellFormedEntry(entries[0]) then Err(IncorrectlyFormatted)
    else
      MalformedCons(entries);
      KeysOfCons(entries);
      Loop(entries[1..], acc[KeyOf(entries[0]) := Coerce(ValueOf(entries[0]), isFloat)], isFloat)
  }

  lemma MalformedCons(entries: seq<string>)
    requires entries != []
    ensures SomeMalformed(entries) <==> !WellFormedEntry(entries[0]) || SomeMalformed(entries[1..])
  {
    var rest := entries[1..];
    if SomeMalformed(entries) && WellFormedEntry(entries[0]) {
      var i :| 0 <= i < |entries| && !WellFormedEntry(entries[i]);
      assert !WellFormedEntry(rest[i - 1]);
    }
    if SomeMalformed(rest) {
      var i :| 0 <= i < |rest| && !WellFormedEntry(rest[i]);
      assert !WellFormedEntry(entries[i + 1]);
    }
  }

  /** The `plugin_args` entry of the session record built from the optional
      option text; `isFloat` tells whether Python's `float()` accepts a text. */
  function Parse(pluginArgs: Option<string>, isFloat: string -> bool)
    : (r: Result<map<string, Value>, ParseError>)
    ensures pluginArgs.None? ==> r == Ok(map[])
    ensures r.Ok? ==> forall k :: k in r.value ==> pluginArgs.Some? && k in KeysOf(Entries(pluginArgs.value))
  {
    match pluginArgs
    case None => Ok(map[])
    case Some(s) =>
      Loop(Entries(s), map[], isFloat)
  }

  lemma KeysOfCons(entries: seq<string>)
    requires entries != []
    ensures KeysOf(entries) == {KeyOf(entries[0])} + KeysOf(entries[1..])
  {
    var rest := entries[1..];
    forall k | k in KeysOf(entries)
      ensures k in {KeyOf(entries[0])} + KeysOf(rest)
    {
      var i :| 0 <= i < |entries| && KeyOf(entries[i]) == k;
      if i > 0 {
        assert KeyOf(rest[i - 1]) == k;
      }
    }
    forall k | k in KeysOf(rest)
      ensures k in KeysOf(entries)
    {
      var i :| 0 <= i < |rest| && KeyOf(rest[i]) == k;
      assert KeyOf(entries[i + 1]) == k;
    }
  }

  /** A key no entry names keeps its accumulated value. */
  lemma {:induction false} LoopKeepsOthers(entries: seq<string>, acc: map<string, Value>, isFloat: string -> bool, k: string)
    requires Loop(entries, acc, isFloat).Ok?
    requires k in acc && k !in KeysOf(entries)
    ensures k in Loop(entries, acc, isFloat).value
    ensures Loop(entries, acc, isFloat).value[k] == acc[k]
  {
    if entries != [] {
      var acc' := acc[KeyOf(entries[0]) := Coerce(ValueOf(entries[0]), isFloat)];
      KeysOfCons(entries);
      LoopKeepsOthers(entries[1..], acc', isFloat, k);
    }
  }

  /** On success, a key's value is the coerced value of its last entry. */
  lemma {:induction false} LoopLastWins(entries: seq<string>, acc: map<string, Value>, isFloat: string -> bool, i: nat)
    requires Loop(entries, acc, isFloat).Ok?
    requires i < |entries| && LastOccurrence(entries, i)
    ensures WellFormedEntry(entries[i])
    ensures KeyOf(entries[i]) in Loop(entries, acc, isFloat).value
    ensures Loop(entries, acc, isFloat).value[KeyOf(entries[i])] == Coerce(ValueOf(entries[i]), isFloat)
  {
    var acc' := acc[KeyOf(entries[0]) := Coerce(ValueOf(entries[0]), isFloat)];
    var rest := entries[1..];
    if i == 0 {
      assert KeyOf(entries[0]) !in KeysOf(rest);
      LoopKeepsOthers(rest, acc', isFloat, KeyOf(entries[0]));
    } else {
      LastOccurrenceTail(entries, i);
      LoopLastWins(rest, acc', isFloat, i - 1);
    }
  }

  lemma LastOccurrenceTail(entries: seq<string>, i: nat)
    requires 0 < i < |entries| && LastOccurrence(entries, i)
    ensures entries[1..][i - 1] == entries[i]
    ensures LastOccurrence(entries[1..], i - 1)
  {
    var rest := entries[1..];
    forall j | i - 1 < j < |rest|
      ensures KeyOf(rest[j]) != KeyOf(rest[i - 1])
    {
      assert rest[j] == entries[j + 1];
    }
  }

  /** No option text gives the empty keyword map. */
  lemma ParseAbsent(isFloat: string -> bool)
    ensures Parse(None, isFloat) == Ok(map[])
  {
  }

  /** Parsing fails exactly when some comma-separated entry does not contain
      exactly one colon. */
  lemma ParseFailsIff(s: string, isFloat: string -> bool)
    ensures Parse(Some(s), isFloat).Err? <==>
      exists i :: 0 <= i < |Entries(s)| && Count(Entries(s)[i], ':') != 1
  {
    assert Parse(Some(s), isFloat) == Loop(Entries(s), map[], isFloat);
  }

  /** The empty text and any text with an empty entry (a trailing comma,
      two adjacent commas) are rejected. */
  lemma ParseRejectsEmptyEntry(s: string, isFloat: string -> bool, i: nat)
    requires i < |Entries(s)| && Entries(s)[i] == ""
    ensures Parse(Some(s), isFloat) == Err(IncorrectlyFormatted)
  {
    var entries := Entries(s);
    assert Count(entries[i], ':') == 0;
    assert !WellFormedEntry(entries[i]);
    assert Parse(Some(s), isFloat) == Loop(entries, map[], isFloat);
    assert Loop(entries, map[], isFloat).error.IncorrectlyFormatted?;
  }

  /** The empty option text is rejected: `"".split(",")` is `[""]`, and the
      empty entry has no colon. */
  lemma ParseRejectsEmptyText(isFloat: string -> bool)
    ensures Parse(Some(""), isFloat) == Err(IncorrectlyFormatted)
  {
    assert Entries("") == [""];
    ParseRejectsEmptyEntry("", isFloat, 0);
  }

  /** A trailing comma is rejected: it leaves an empty last entry. */
  lemma ParseRejectsTrailingComma(t: string, isFloat: string -> bool)
    ensures Parse(Some(t + ","), isFloat) == Err(IncorrectlyFormatted)
  {
    SplitTrailingSeparator(t, ',');
    ParseRejectsEmptyEntry(t + ",", isFloat, |Entries(t + ",")| - 1);
  }

  /** On success the keys are exactly the left-hand parts of the entries. */
  lemma ParseKeys(s: string, isFloat: string -> bool)
    requires Parse(Some(s), isFloat).Ok?
    ensures Parse(Some(s), isFloat).value.Keys == KeysOf(Entries(s))
  {
    assert Parse(Some(s), isFloat) == Loop(Entries(s), map[], isFloat);
  }

  /** On success each key holds the coerced value of the last entry naming it. */
  lemma ParseLastWins(s: string, isFloat: string -> bool, i: nat)
    requires Parse(Some(s), isFloat).Ok?
    requires i < |Entries(s)| && LastOccurrence(Entries(s), i)
    ensures WellFormedEntry(Entries(s)[i])
    ensures KeyOf(Entries(s)[i]) in Parse(Some(s), isFloat).value
    ensures Parse(Some(s), isFloat).value[KeyOf(Entries(s)[i])] ==
      Coerce(ValueOf(Entries(s)[i]), isFloat)
  {
    LoopLastWins(Entries(s), map[], isFloat, i);
  }

  /** Two `key:value` entries, as in the help text's `n_procs:2,memory_gb:5`,
      give the map of the two coerced values, the second stored last. */
  lemma TwoEntries(k1: string, v1: string, k2: string, v2: string, isFloat: string -> bool)
    requires Plain(k1) && Plain(v1) && Plain(k2) && Plain(v2)
    ensures Parse(Some(k1 + ":" + v1 + "," + k2 + ":" + v2), isFloat) ==
      Ok(map[k1 := Coerce(v1, isFloat)][k2 := Coerce(v2, isFloat)])
  {
    var s := k1 + ":" + v1 + "," + k2 + ":" + v2;
    var e1, e2 := k1 + ":" + v1, k2 + ":" + v2;
    EntryParts(k1, v1);
    EntryParts(k2, v2);
    assert Entries(s) == [e1, e2] by {
      assert Join([e1, e2], ',') == e1 + [','] + Join([e2], ',') by {
        assert [e1, e2][1..] == [e2];
      }
      assert s == e1 + [','] + e2;
      SplitJoin([e1, e2], ',');
    }
    LoopTwo(e1, e2, isFloat);
  }

  /** A key given twice keeps only its second value: `a:1,a:2` gives `{a: 2}`. */
  lemma DuplicateKey(k: string, v1: string, v2: string, isFloat: string -> bool)
    requires Plain(k) && Plain(v1) && Plain(v2)
    ensures Parse(Some(k + ":" + v1 + "," + k + ":" + v2), isFloat) == Ok(map[k := Coerce(v2, isFloat)])
  {
    TwoEntries(k, v1, k, v2, isFloat);
    assert map[k := Coerce(v1, isFloat)][k := Coerce(v2, isFloat)] == map[k := Coerce(v2, isFloat)];
  }

  lemma LoopTwo(e1: string, e2: string, isFloat: string -> bool)
    requires WellFormedEntry(e1) && WellFormedEntry(e2)
    ensures Loop([e1, e2], map[], isFloat) ==
      Ok(map[KeyOf(e1) := Coerce(ValueOf(e1), isFloat)][KeyOf(e2) := Coerce(ValueOf(e2), isFloat)])
  {
    var m1 := map[KeyOf(e1) := Coerce(ValueOf(e1), isFloat)];
    assert Loop([e1, e2], map[], isFloat) == Loop([e2], m1, isFloat) by {
      assert [e1, e2][1..] == [e2];
    }
    assert Loop([e2], m1, isFloat) == Ok(m1[KeyOf(e2) := Coerce(ValueOf(e2), isFloat)]) by {
      assert [e2][1..] == [];
    }
  }

  /** Text free of both separators. */
  predicate Plain(t: string)
  {
    ',' !in t && ':' !in t
  }

  /** An entry built from a colon-free key and value splits back into them. */
  lemma EntryParts(key: string, value: string)
    requires Plain(key) && Plain(value)
    ensures WellFormedEntry(key + ":" + value)
    ensures KeyOf(key + ":" + value) == key && ValueOf(key + ":" + value) == value
    ensures ',' !in key + ":" + value
  {
    SplitJoin([key, value], ':');
    assert Join([key, value], ':') == key + ":" + value;
  }
}
