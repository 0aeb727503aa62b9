/** The single source of truth: the application's facts (job, company,
    resume) kept in an INI file, the update that writes keyword arguments
    named `section_option` into it, and the object that reads them back. */
module Truth {
  import opened Wrappers
  import opened Text
  import opened Dicts

  // ---------------------------------------------------------------------------
  // Splitting a keyword at its first underscore

  /** The first index at or after `i` holding `_` (`|key|` if there is none). */
  function Underscore(key: string, i: nat): (k: nat)
    requires i <= |key|
    ensures i <= k <= |key| && (k < |key| ==> key[k] == '_')
    ensures forall j :: i <= j < k ==> key[j] != '_'
    decreases |key| - i
  {
    if i == |key| || key[i] == '_' then i else Underscore(key, i + 1)
  }

  /** `section, option = key.split("_", 1)`; `None` stands for the ValueError
      that a key without `_` raises. */
  function SplitKey(key: string): (r: Option<(string, string)>)
    ensures r.None? <==> '_' !in key
    ensures r.Some? ==> key == r.value.0 + "_" + r.value.1 && '_' !in r.value.0
  {
    var k := Underscore(key, 0);
    if k == |key| then None
    else
      assert key == key[..k] + "_" + key[k + 1..];
      Some((key[..k], key[k + 1..]))
  }

  /** The split is the unique one whose section holds no `_`. */
  lemma SplitKeyExact(section: string, option: string)
    requires '_' !in section
    ensures SplitKey(section + "_" + option) == Some((section, option))
  {
    var key := section + "_" + option;
    var k := Underscore(key, 0);
    assert key[|section|] == '_';
    assert k == |section|;
    assert key[..k] == section;
    assert key[k + 1..] == option;
  }

  /** `"application_company_name"` names option `company_name` of section
      `application`. */
  lemma SplitCompanyName()
    ensures SplitKey("application_company_name") == Some(("application", "company_name"))
  {
    assert "application_company_name" == "application" + "_" + "company_name";
    SplitKeyExact("application", "company_name");
  }

  // ---------------------------------------------------------------------------
  // Grouping the keyword arguments

  /** The nested `updates` dictionary: section to option to value. */
  type Updates = ODict<ODict<string>>

  predicate HasEntry(u: Updates, s: string, o: string) {
    HasKey(u, s) && HasKey(Get(u, s), o)
  }

  /** `updates[s][o]`. */
  function Lookup(u: Updates, s: string, o: string): string
    requires HasEntry(u, s, o)
  {
    Get(Get(u, s), o)
  }

  /** One step of the grouping loop: `updates[section] = {}` when the section
      is new, then `updates[section][option] = value`. */
  function AddUpdate(u: Updates, s: string, o: string, v: string): Updates {
    Put(u, s, Put(if HasKey(u, s) then Get(u, s) else [], o, v))
  }

  /** The step adds the one entry and changes no other. */
  lemma AddUpdateLookup(u: Updates, s: string, o: string, v: string, s': string, o': string)
    ensures HasEntry(AddUpdate(u, s, o, v), s', o') <==> HasEntry(u, s', o') || (s' == s && o' == o)
    ensures s' == s && o' == o ==> Lookup(AddUpdate(u, s, o, v), s', o') == v
    ensures HasEntry(u, s', o') && !(s' == s && o' == o) ==> Lookup(AddUpdate(u, s, o, v), s', o') == Lookup(u, s', o')
  {
    var inner: ODict<string> := if HasKey(u, s) then Get(u, s) else [];
    var inner' := Put(inner, o, v);
    PutGet(u, s, inner');
    if s' == s {
      PutGet(inner, o, v);
      if o' != o {
        PutOther(inner, o, v, o');
      }
    } else {
      PutOther(u, s, inner', s');
    }
  }

  /** Some keyword argument splits into `(s, o)`. */
  predicate Names(kwargs: ODict<string>, s: string, o: string) {
    exists i | 0 <= i < |kwargs| :: SplitKey(kwargs[i].0) == Some((s, o))
  }

  lemma NamesCons(kwargs: ODict<string>, s: string, o: string)
    requires kwargs != []
    ensures Names(kwargs, s, o) <==> SplitKey(kwargs[0].0) == Some((s, o)) || Names(kwargs[1..], s, o)
  {
    if Names(kwargs, s, o) {
      var i :| 0 <= i < |kwargs| && SplitKey(kwargs[i].0) == Some((s, o));
      if i > 0 { assert kwargs[1..][i - 1] == kwargs[i]; }
    }
    if Names(kwargs[1..], s, o) {
      var i :| 0 <= i < |kwargs[1..]| && SplitKey(kwargs[1..][i].0) == Some((s, o));
      assert kwargs[i + 1] == kwargs[1..][i];
    }
  }

  /** The grouping loop from the accumulated `u` on: the first key without
      `_` raises. */
  function GroupFrom(u: Updates, kwargs: ODict<string>): Result<Updates>
    decreases |kwargs|
  {
    if kwargs == [] then Success(u)
    else
      match SplitKey(kwargs[0].0)
      case None => Failure("ValueError: not enough values to unpack (expected 2, got 1)")
      case Some(p) => GroupFrom(AddUpdate(u, p.0, p.1, kwargs[0].1), kwargs[1..])
  }

  /** The grouping fails exactly when some keyword holds no `_`. */
  lemma {:induction false} GroupFails(u: Updates, kwargs: ODict<string>)
    ensures GroupFrom(u, kwargs).Failure? <==> exists i :: 0 <= i < |kwargs| && '_' !in kwargs[i].0
    decreases |kwargs|
  {
    if kwargs != [] {
      var p := SplitKey(kwargs[0].0);
      if p.Some? {
        GroupFails(AddUpdate(u, p.value.0, p.value.1, kwargs[0].1), kwargs[1..]);
        if exists i :: 0 <= i < |kwargs| && '_' !in kwargs[i].0 {
          var i :| 0 <= i < |kwargs| && '_' !in kwargs[i].0;
          assert kwargs[1..][i - 1] == kwargs[i];
        }
        if exists i :: 0 <= i < |kwargs[1..]| && '_' !in kwargs[1..][i].0 {
          var i :| 0 <= i < |kwargs[1..]| && '_' !in kwargs[1..][i].0;
          assert kwargs[i + 1] == kwargs[1..][i];
        }
      }
    }
  }

  /** The grouped entries are the accumulated ones and one per keyword. */
  lemma {:induction false} GroupEntries(u: Updates, kwargs: ODict<string>, s: string, o: string)
    requires GroupFrom(u, kwargs).Success?
    ensures HasEntry(GroupFrom(u, kwargs).value, s, o) <==> HasEntry(u, s, o) || Names(kwargs, s, o)
    ensures HasEntry(u, s, o) && !Names(kwargs, s, o) ==> Lookup(GroupFrom(u, kwargs).value, s, o) == Lookup(u, s, o)
    decreases |kwargs|
  {
    if kwargs != [] {
      var p := SplitKey(kwargs[0].0).value;
      var u' := AddUpdate(u, p.0, p.1, kwargs[0].1);
      GroupEntries(u', kwargs[1..], s, o);
      AddUpdateLookup(u, p.0, p.1, kwargs[0].1, s, o);
      NamesCons(kwargs, s, o);
    }
  }

  /** Distinct keywords split into distinct pairs, so each keyword's value is
      the one grouped under its pair. */
  lemma {:induction false} GroupValue(u: Updates, kwargs: ODict<string>, i: nat)
    requires GroupFrom(u, kwargs).Success? && DistinctKeys(kwargs) && i < |kwargs|
    ensures var p := SplitKey(kwargs[i].0);
            p.Some? && HasEntry(GroupFrom(u, kwargs).value, p.value.0, p.value.1)
            && Lookup(GroupFrom(u, kwargs).value, p.value.0, p.value.1) == kwargs[i].1
    decreases |kwargs|
  {
    var p := SplitKey(kwargs[0].0).value;
    var u' := AddUpdate(u, p.0, p.1, kwargs[0].1);
    if i == 0 {
      AddUpdateLookup(u, p.0, p.1, kwargs[0].1, p.0, p.1);
      forall j | 0 <= j < |kwargs[1..]| ensures SplitKey(kwargs[1..][j].0) != Some((p.0, p.1)) {
        assert kwargs[1..][j] == kwargs[j + 1];
      }
      GroupEntries(u', kwargs[1..], p.0, p.1);
    } else {
      var rest := kwargs[1..];
      assert rest[i - 1] == kwargs[i];
      assert DistinctKeys(rest) by {
        forall a, b | 0 <= a < b < |rest| ensures rest[a].0 != rest[b].0 {
          assert rest[a] == kwargs[a + 1] && rest[b] == kwargs[b + 1];
        }
      }
      assert GroupFrom(u, kwargs) == GroupFrom(u', rest);
      GroupValue(u', rest, i - 1);
    }
  }

  /** The number of (section, option) entries. */
  function Count(u: Updates): nat {
    if u == [] then 0 else |u[0].1| + Count(u[1..])
  }

  lemma {:induction false} CountPut(u: Updates, s: string, x: ODict<string>)
    ensures Count(Put(u, s, x)) == Count(u) + |x| - (if HasKey(u, s) then |Get(u, s)| else 0)
  {
    if u != [] && u[0].0 != s {
      CountPut(u[1..], s, x);
      assert Put(u, s, x)[1..] == Put(u[1..], s, x);
      assert HasKey(u, s) <==> HasKey(u[1..], s) by {
        if HasKey(u, s) {
          var i :| 0 <= i < |u| && u[i].0 == s;
          assert u[1..][i - 1] == u[i];
        }
        if HasKey(u[1..], s) {
          var i :| 0 <= i < |u[1..]| && u[1..][i].0 == s;
          assert u[i + 1] == u[1..][i];
        }
      }
    } else if u != [] {
      assert Put(u, s, x)[1..] == u[1..];
    }
  }

  /** A new (section, option) pair adds one entry; a known one adds none. */
  lemma CountAddUpdate(u: Updates, s: string, o: string, v: string)
    ensures Count(AddUpdate(u, s, o, v)) == Count(u) + (if HasEntry(u, s, o) then 0 else 1)
  {
    var inner: ODict<string> := if HasKey(u, s) then Get(u, s) else [];
    CountPut(u, s, Put(inner, o, v));
    PutLength(inner, o, v);
  }

  /** Grouping distinct keywords adds one entry per keyword. */
  lemma {:induction false} GroupCount(u: Updates, kwargs: ODict<string>)
    requires GroupFrom(u, kwargs).Success? && DistinctKeys(kwargs)
    requires forall s, o :: Names(kwargs, s, o) ==> !HasEntry(u, s, o)
    ensures Count(GroupFrom(u, kwargs).value) == Count(u) + |kwargs|
    decreases |kwargs|
  {
    if kwargs != [] {
      var p := SplitKey(kwargs[0].0).value;
      var rest := kwargs[1..];
      var u' := AddUpdate(u, p.0, p.1, kwargs[0].1);
      assert Names(kwargs, p.0, p.1);
      CountAddUpdate(u, p.0, p.1, kwargs[0].1);
      assert DistinctKeys(rest) by {
        forall a, b | 0 <= a < b < |rest| ensures rest[a].0 != rest[b].0 {
          assert rest[a] == kwargs[a + 1] && rest[b] == kwargs[b + 1];
        }
      }
      forall s, o | Names(rest, s, o) ensures !HasEntry(u', s, o) {
        var j :| 0 <= j < |rest| && SplitKey(rest[j].0) == Some((s, o));
        assert rest[j] == kwargs[j + 1];
        assert kwargs[j + 1].0 != kwargs[0].0;
        assert Names(kwargs, s, o);
        AddUpdateLookup(u, p.0, p.1, kwargs[0].1, s, o);
      }
      assert GroupFrom(u, kwargs) == GroupFrom(u', rest);
      GroupCount(u', rest);
    }
  }

  /** Every section of the grouped updates holds at least one option, and
      keys stay distinct at both levels. */
  predicate WellGrouped(u: Updates) {
    DistinctKeys(u) && forall i :: 0 <= i < |u| ==> u[i].1 != [] && DistinctKeys(u[i].1)
  }

  lemma {:induction false} GroupWellGrouped(u: Updates, kwargs: ODict<string>)
    requires WellGrouped(u) && GroupFrom(u, kwargs).Success?
    ensures WellGrouped(GroupFrom(u, kwargs).value)
    decreases |kwargs|
  {
    if kwargs != [] {
      var p := SplitKey(kwargs[0].0).value;
      var inner: ODict<string> := if HasKey(u, p.0) then Get(u, p.0) else [];
      var P := (x: ODict<string>) => x != [] && DistinctKeys(x);
      if HasKey(u, p.0) {
        GetHolds(u, p.0, (x: ODict<string>) => DistinctKeys(x));
      }
      PutDistinct(inner, p.1, kwargs[0].1);
      PutLength(inner, p.1, kwargs[0].1);
      PutHolds(u, p.0, Put(inner, p.1, kwargs[0].1), P);
      PutDistinct(u, p.0, Put(inner, p.1, kwargs[0].1));
      GroupWellGrouped(AddUpdate(u, p.0, p.1, kwargs[0].1), kwargs[1..]);
    }
  }

  /** The number of entries grouped from distinct keywords is their number. */
  lemma GroupedCount(kwargs: ODict<string>)
    requires GroupFrom([], kwargs).Success? && DistinctKeys(kwargs)
    ensures Count(GroupFrom([], kwargs).value) == |kwargs|
  {
    GroupCount([], kwargs);
  }

  // ---------------------------------------------------------------------------
  // Writing the updates into the parser

  /** The parser's sections, each a map from option to value. */
  type Ini = map<string, map<string, string>>

  /** `f"\"{value}\""`. */
  function Quote(v: string): (r: string)
    ensures |r| == |v| + 2 && r[0] == '"' && r[|r| - 1] == '"' && r[1..|r| - 1] == v
  {
    "\"" + v + "\""
  }

  /** `strip` leaves the quotes in place: a quoted value reads back quoted. */
  lemma StripQuote(v: string)
    ensures Strip(Quote(v)) == Quote(v) && Quote(v) != v
  {
    assert !IsSpace('"');
    StripFixed(Quote(v));
  }

  /** `parser.set(s, option, quoted value)` for each option in turn; setting
      an option in a missing section raises. */
  function SetOptions(parser: Ini, s: string, options: ODict<string>): Result<Ini>
    decreases |options|
  {
    if options == [] then Success(parser)
    else if s !in parser then Failure("NoSectionError: No section: '" + s + "'")
    else SetOptions(parser[s := parser[s][options[0].0 := Quote(options[0].1)]], s, options[1..])
  }

  /** Carries on with the remaining sections after one section's outcome. */
  function Continue(r: Result<Ini>, updates: Updates): Result<Ini>
    decreases |updates|, 2
  {
    match r
    case Failure(e) => Failure(e)
    case Success(p) => ApplyFrom(p, updates)
  }

  /** The writing loops from parser state `parser` on. */
  function ApplyFrom(parser: Ini, updates: Updates): Result<Ini>
    decreases |updates|, 1
  {
    if updates == [] then Success(parser)
    else Continue(SetOptions(parser, updates[0].0, updates[0].1), updates[1..])
  }

  /** Setting one section's options keeps the sections, sets the named
      options and leaves every other option alone. */
  lemma {:induction false} SetOptionsLookup(parser: Ini, s: string, options: ODict<string>, s': string, o: string)
    requires SetOptions(parser, s, options).Success? && DistinctKeys(options)
    ensures var r := SetOptions(parser, s, options).value;
            r.Keys == parser.Keys
            && (s' in parser ==> (o in r[s'] <==> o in parser[s'] || (s' == s && HasKey(options, o))))
            && (s' == s && HasKey(options, o) ==> s in parser && r[s][o] == Quote(Get(options, o)))
            && (s' in parser && o in parser[s'] && !(s' == s && HasKey(options, o)) ==> r[s'][o] == parser[s'][o])
    decreases |options|
  {
    if options != [] {
      var rest := options[1..];
      var p := parser[s := parser[s][options[0].0 := Quote(options[0].1)]];
      assert DistinctKeys(rest) by {
        forall a, b | 0 <= a < b < |rest| ensures rest[a].0 != rest[b].0 {
          assert rest[a] == options[a + 1] && rest[b] == options[b + 1];
        }
      }
      SetOptionsLookup(p, s, rest, s', o);
      assert HasKey(options, o) <==> options[0].0 == o || HasKey(rest, o) by {
        if HasKey(options, o) {
          var i :| 0 <= i < |options| && options[i].0 == o;
          if i > 0 { assert rest[i - 1] == options[i]; }
        }
        if HasKey(rest, o) {
          var i :| 0 <= i < |rest| && rest[i].0 == o;
          assert options[i + 1] == rest[i];
        }
      }
      if options[0].0 == o {
        forall i | 0 <= i < |rest| ensures rest[i].0 != o {
          assert rest[i] == options[i + 1];
        }
      }
    }
  }

  /** Setting fails exactly when there is an option to set and its section is missing. */
  lemma {:induction false} SetOptionsFails(parser: Ini, s: string, options: ODict<string>)
    ensures SetOptions(parser, s, options).Failure? <==> options != [] && s !in parser
    decreases |options|
  {
    if options != [] && s in parser {
      SetOptionsFails(parser[s := parser[s][options[0].0 := Quote(options[0].1)]], s, options[1..]);
    }
  }

  /** How an entry of `updates` relates to its first section and the rest. */
  lemma HasEntryCons(updates: Updates, s: string, o: string)
    requires updates != [] && DistinctKeys(updates)
    ensures HasEntry(updates, s, o) <==> (s == updates[0].0 && HasKey(updates[0].1, o)) || HasEntry(updates[1..], s, o)
    ensures s == updates[0].0 ==> !HasKey(updates[1..], s)
    ensures s == updates[0].0 && HasKey(updates[0].1, o) ==> Lookup(updates, s, o) == Get(updates[0].1, o)
    ensures s != updates[0].0 && HasEntry(updates[1..], s, o) ==> Lookup(updates, s, o) == Lookup(updates[1..], s, o)
  {
    var rest := updates[1..];
    if s == updates[0].0 {
      forall i | 0 <= i < |rest| ensures rest[i].0 != s {
        assert rest[i] == updates[i + 1];
      }
    } else {
      assert HasKey(updates, s) <==> HasKey(rest, s) by {
        if HasKey(updates, s) {
          var i :| 0 <= i < |updates| && updates[i].0 == s;
          assert rest[i - 1] == updates[i];
        }
        if HasKey(rest, s) {
          var i :| 0 <= i < |rest| && rest[i].0 == s;
          assert updates[i + 1] == rest[i];
        }
      }
    }
  }

  /** Writing well-grouped updates keeps the sections, quotes every grouped
      value into place and leaves every other option alone. */
  lemma {:induction false} ApplyLookup(parser: Ini, updates: Updates, s: string, o: string)
    requires ApplyFrom(parser, updates).Success? && WellGrouped(updates)
    ensures var r := ApplyFrom(parser, updates).value;
            r.Keys == parser.Keys
            && (s in parser ==> (o in r[s] <==> o in parser[s] || HasEntry(updates, s, o)))
            && (HasEntry(updates, s, o) ==> s in parser && r[s][o] == Quote(Lookup(updates, s, o)))
            && (s in parser && o in parser[s] && !HasEntry(updates, s, o) ==> r[s][o] == parser[s][o])
    decreases |updates|
  {
    if updates != [] {
      var rest := updates[1..];
      var p := SetOptions(parser, updates[0].0, updates[0].1).value;
      assert WellGrouped(rest) by {
        forall a, b | 0 <= a < b < |rest| ensures rest[a].0 != rest[b].0 {
          assert rest[a] == updates[a + 1] && rest[b] == updates[b + 1];
        }
        forall a | 0 <= a < |rest| ensures rest[a].1 != [] && DistinctKeys(rest[a].1) {
          assert rest[a] == updates[a + 1];
        }
      }
      SetOptionsLookup(parser, updates[0].0, updates[0].1, s, o);
      ApplyLookup(p, rest, s, o);
      HasEntryCons(updates, s, o);
    }
  }

  /** Writing fails exactly when a section holding options is missing. */
  lemma {:induction false} ApplyFails(parser: Ini, updates: Updates)
    ensures ApplyFrom(parser, updates).Failure? <==>
              exists i :: 0 <= i < |updates| && updates[i].1 != [] && updates[i].0 !in parser
    decreases |updates|
  {
    if updates != [] {
      var rest := updates[1..];
      SetOptionsFails(parser, updates[0].0, updates[0].1);
      var r := SetOptions(parser, updates[0].0, updates[0].1);
      if r.Success? {
        assert r.value.Keys == parser.Keys by {
          if updates[0].1 != [] {
            SetOptionsKeys(parser, updates[0].0, updates[0].1);
          }
        }
        ApplyFails(r.value, rest);
        if exists i :: 0 <= i < |updates| && updates[i].1 != [] && updates[i].0 !in parser {
          var i :| 0 <= i < |updates| && updates[i].1 != [] && updates[i].0 !in parser;
          assert rest[i - 1] == updates[i];
        }
        if exists i :: 0 <= i < |rest| && rest[i].1 != [] && rest[i].0 !in r.value {
          var i :| 0 <= i < |rest| && rest[i].1 != [] && rest[i].0 !in r.value;
          assert updates[i + 1] == rest[i];
        }
      }
    }
  }

  /** Setting options never adds or removes a section. */
  lemma {:induction false} SetOptionsKeys(parser: Ini, s: string, options: ODict<string>)
    requires SetOptions(parser, s, options).Success?
    ensures SetOptions(parser, s, options).value.Keys == parser.Keys
    decreases |options|
  {
    if options != [] {
      SetOptionsKeys(parser[s := parser[s][options[0].0 := Quote(options[0].1)]], s, options[1..]);
    }
  }

  // ---------------------------------------------------------------------------
  // update_ssot_ini_info

  /** The parser content `update_ssot_ini_info` writes back, given the keyword
      arguments and the loaded parser; the first error raised otherwise. */
  function UpdateSpec(kwargs: ODict<string>, parser: Ini): Result<Ini> {
    match GroupFrom([], kwargs)
    case Failure(e) => Failure(e)
    case Success(u) => ApplyFrom(parser, u)
  }

  /** Groups the keywords by the text before their first `_`, then sets each
      option, quoted, in the loaded parser. */
  method UpdateSsotIniInfo(kwargs: ODict<string>, parser: Ini) returns (written: Result<Ini>)
    ensures written == UpdateSpec(kwargs, parser)
  {
    var updates: Updates := [];
    for i := 0 to |kwargs|
      invariant GroupFrom([], kwargs) == GroupFrom(updates, kwargs[i..])
    {
      assert kwargs[i..][0] == kwargs[i] && kwargs[i..][1..] == kwargs[i + 1..];
      var split := SplitKey(kwargs[i].0);
      if split.None? {
        return Failure("ValueError: not enough values to unpack (expected 2, got 1)");
      }
      var section, option := split.value.0, split.value.1;
      var options: ODict<string> := if HasKey(updates, section) then Get(updates, section) else [];
      updates := Put(updates, section, Put(options, option, kwargs[i].1));
    }
    var result := parser;
    for i := 0 to |updates|
      invariant ApplyFrom(parser, updates) == ApplyFrom(result, updates[i..])
    {
      assert updates[i..][0] == updates[i] && updates[i..][1..] == updates[i + 1..];
      var section, options := updates[i].0, updates[i].1;
      for j := 0 to |options|
        invariant ApplyFrom(parser, updates) == Continue(SetOptions(result, section, options[j..]), updates[i + 1..])
      {
        assert options[j..][0] == options[j] && options[j..][1..] == options[j + 1..];
        if section !in result {
          return Failure("NoSectionError: No section: '" + section + "'");
        }
        result := result[section := result[section][options[j].0 := Quote(options[j].1)]];
      }
    }
    return Success(result);
  }

  /** As the update is called, `load_ini` is given the ini file's own path
      as its directory, so it reads a file that does not exist and returns an
      empty parser; any update with a keyword then raises. */
  lemma UpdateOfEmptyParserFails(kwargs: ODict<string>)
    requires kwargs != []
    ensures UpdateSpec(kwargs, map[]).Failure?
  {
    var empty: Ini := map[];
    UpdateFails(kwargs, empty);
    if '_' in kwargs[0].0 {
      assert SplitKey(kwargs[0].0).value.0 !in empty;
    }
  }

  /** The update fails exactly when a keyword holds no `_` or names a
      section the file does not have. */
  lemma UpdateFails(kwargs: ODict<string>, parser: Ini)
    ensures UpdateSpec(kwargs, parser).Failure? <==>
              (exists i :: 0 <= i < |kwargs| && '_' !in kwargs[i].0)
              || (exists i :: 0 <= i < |kwargs| && SplitKey(kwargs[i].0).Some? && SplitKey(kwargs[i].0).value.0 !in parser)
  {
    GroupFails([], kwargs);
    var g := GroupFrom([], kwargs);
    if g.Success? {
      var u := g.value;
      ApplyFails(parser, u);
      assert WellGrouped(u) by {
        GroupWellGrouped([], kwargs);
      }
      if exists i :: 0 <= i < |u| && u[i].1 != [] && u[i].0 !in parser {
        var i :| 0 <= i < |u| && u[i].1 != [] && u[i].0 !in parser;
        var o := u[i].1[0].0;
        assert HasEntry(u, u[i].0, o) by {
          GetAt(u, i);
          assert u[i].1[0].0 == o;
        }
        GroupEntries([], kwargs, u[i].0, o);
        var k :| 0 <= k < |kwargs| && SplitKey(kwargs[k].0) == Some((u[i].0, o));
        assert SplitKey(kwargs[k].0).value.0 !in parser;
      }
      if exists i :: 0 <= i < |kwargs| && SplitKey(kwargs[i].0).Some? && SplitKey(kwargs[i].0).value.0 !in parser {
        var i :| 0 <= i < |kwargs| && SplitKey(kwargs[i].0).Some? && SplitKey(kwargs[i].0).value.0 !in parser;
        var p := SplitKey(kwargs[i].0).value;
        GroupEntries([], kwargs, p.0, p.1);
        var k :| 0 <= k < |u| && u[k].0 == p.0;
        assert u[k].1 != [] && u[k].0 !in parser;
      }
    }
  }

  /** A successful update sets each keyword's option, split at its first
      `_`, to its value in quotes. */
  lemma UpdateWrites(kwargs: ODict<string>, parser: Ini, i: nat)
    requires UpdateSpec(kwargs, parser).Success? && DistinctKeys(kwargs) && i < |kwargs|
    ensures var p := SplitKey(kwargs[i].0);
            p.Some? && p.value.0 in UpdateSpec(kwargs, parser).value
            && p.value.1 in UpdateSpec(kwargs, parser).value[p.value.0]
            && UpdateSpec(kwargs, parser).value[p.value.0][p.value.1] == Quote(kwargs[i].1)
  {
    var u := GroupFrom([], kwargs).value;
    GroupFails([], kwargs);
    var p := SplitKey(kwargs[i].0).value;
    GroupValue([], kwargs, i);
    GroupWellGrouped([], kwargs);
    ApplyLookup(parser, u, p.0, p.1);
  }

  /** A successful update keeps every section, adds no option that no keyword
      names, and leaves every option no keyword names as it was. */
  lemma UpdateKeeps(kwargs: ODict<string>, parser: Ini, s: string, o: string)
    requires UpdateSpec(kwargs, parser).Success?
    ensures var r := UpdateSpec(kwargs, parser).value;
            r.Keys == parser.Keys
            && (s in parser ==> (o in r[s] <==> o in parser[s] || Names(kwargs, s, o)))
            && (s in parser && o in parser[s] && !Names(kwargs, s, o) ==> r[s][o] == parser[s][o])
  {
    var u := GroupFrom([], kwargs).value;
    GroupEntries([], kwargs, s, o);
    GroupWellGrouped([], kwargs);
    ApplyLookup(parser, u, s, o);
  }

  // ---------------------------------------------------------------------------
  // The single_source_of_truth object

  /** The text fields the object copies out of the configuration. */
  datatype Field = JobName | JobDescription | CompanyName | CompanyDescription | Resume | CompanyWebsite

  /** The (section, option) pair each field is read from. */
  function Location(f: Field): (string, string) {
    match f
    case JobName => ("application", "job_name")
    case JobDescription => ("application", "job_description")
    case CompanyName => ("application", "company_name")
    case CompanyDescription => ("application", "company_description")
    case Resume => ("candidate", "resume")
    case CompanyWebsite => ("application", "company_website")
  }

  /** The keyword `update_ssot_ini_info` takes to write a field. */
  function Key(f: Field): string {
    Location(f).0 + "_" + Location(f).1
  }

  /** Fields live under distinct option names, and each field's keyword splits back
      into the place it is read from. */
  lemma FieldKeys(f: Field, g: Field)
    ensures SplitKey(Key(f)) == Some(Location(f))
    ensures Location(f).1 == Location(g).1 ==> f == g
  {
    SplitKeyExact(Location(f).0, Location(f).1);
  }

  /** Every field empty, before any is assigned. */
  const EmptyValues: map<Field, string> :=
    map[JobName := "", JobDescription := "", CompanyName := "", CompanyDescription := "", Resume := "", CompanyWebsite := ""]

  /** The order `__init__` assigns the fields in. */
  const InitOrder: seq<Field> := [JobName, JobDescription, CompanyName, CompanyDescription, Resume, CompanyWebsite]

  /** The order `update_truth` assigns them in: the website before the resume. */
  const UpdateOrder: seq<Field> := [JobName, JobDescription, CompanyName, CompanyDescription, CompanyWebsite, Resume]

  /** `config.read(file)`: the file's sections are added, and its options
      override those already present. */
  function Merge(config: Ini, file: Ini): Ini {
    map s | s in config.Keys + file.Keys ::
      if s in file && s in config then config[s] + file[s]
      else if s in file then file[s]
      else config[s]
  }

  lemma MergeLookup(config: Ini, file: Ini, s: string, o: string)
    ensures var r := Merge(config, file);
            (s in r <==> s in config || s in file)
            && (s in r && o in r[s] <==> (s in config && o in config[s]) || (s in file && o in file[s]))
            && (s in file && o in file[s] ==> r[s][o] == file[s][o])
            && (s in config && o in config[s] && !(s in file && o in file[s]) ==> r[s][o] == config[s][o])
  {
  }

  /** `config.get(section, option).strip()`, or the error `get` raises. */
  function ReadField(config: Ini, f: Field): (r: Result<string>)
    ensures r.Success? <==> Location(f).0 in config && Location(f).1 in config[Location(f).0]
    ensures r.Success? ==> r.value == Strip(config[Location(f).0][Location(f).1])
  {
    var (s, o) := Location(f);
    if s !in config then Failure("NoSectionError: No section: '" + s + "'")
    else if o !in config[s] then Failure("NoOptionError: No option '" + o + "' in section: '" + s + "'")
    else Success(Strip(config[s][o]))
  }

  /** A field read is the stored text without its surrounding whitespace. */
  lemma ReadFieldTrimmed(config: Ini, f: Field)
    requires ReadField(config, f).Success?
    ensures var raw := config[Location(f).0][Location(f).1];
            var v := ReadField(config, f).value;
            Trimmed(v) && exists i :: Surrounded(raw, v, i)
  {
    var raw := config[Location(f).0][Location(f).1];
    assert ReadField(config, f).value == Strip(raw);
  }

  /** The field values after assigning `order` in turn, and the error that
      stopped the assignments, if any. */
  datatype Loading = Loading(values: map<Field, string>, error: Option<string>)

  function Assign(values: map<Field, string>, config: Ini, order: seq<Field>): Loading
    decreases |order|
  {
    if order == [] then Loading(values, None)
    else
      match ReadField(config, order[0])
      case Failure(e) => Loading(values, Some(e))
      case Success(v) => Assign(values[order[0] := v], config, order[1..])
  }

  /** The assignments finish exactly when every field in `order` can be read. */
  lemma {:induction false} AssignSucceeds(values: map<Field, string>, config: Ini, order: seq<Field>)
    ensures Assign(values, config, order).error.None? <==> forall g :: g in order ==> ReadField(config, g).Success?
    decreases |order|
  {
    if order != [] {
      var r := ReadField(config, order[0]);
      if r.Success? {
        AssignSucceeds(values[order[0] := r.value], config, order[1..]);
        assert forall g :: g in order <==> g == order[0] || g in order[1..];
      }
    }
  }

  /** When the assignments finish, each field of `order` holds what was read
      and the other fields keep their values. */
  lemma {:induction false} AssignValue(values: map<Field, string>, config: Ini, order: seq<Field>, f: Field)
    requires forall g :: g in order ==> ReadField(config, g).Success?
    ensures var l := Assign(values, config, order).values;
            (f in order ==> f in l && l[f] == ReadField(config, f).value)
            && (f !in order ==> (f in l <==> f in values) && (f in values ==> l[f] == values[f]))
    decreases |order|
  {
    if order != [] {
      var g, rest := order[0], order[1..];
      assert forall h :: h in rest ==> h in order;
      var v := ReadField(config, g).value;
      var next := values[g := v];
      assert Assign(values, config, order) == Assign(next, config, rest);
      AssignValue(next, config, rest, f);
      if f !in rest && f != g {
        assert f !in order;
      }
    }
  }

  /** The index of the first field in `order` that cannot be read, or `|order|`. */
  function FirstFailure(config: Ini, order: seq<Field>): (k: nat)
    ensures k <= |order|
    ensures forall j :: 0 <= j < k ==> ReadField(config, order[j]).Success?
    ensures k < |order| ==> ReadField(config, order[k]).Failure?
    decreases |order|
  {
    if order == [] || ReadField(config, order[0]).Failure? then 0
    else
      var k := FirstFailure(config, order[1..]);
      assert forall j :: 0 < j < k + 1 ==> order[j] == order[1..][j - 1];
      k + 1
  }

  /** The assignments stop at the first field that cannot be read, with its
      error, after assigning exactly the fields before it. */
  lemma {:induction false} AssignStops(values: map<Field, string>, config: Ini, order: seq<Field>)
    ensures var k := FirstFailure(config, order);
            Assign(values, config, order)
            == Loading(Assign(values, config, order[..k]).values,
                       if k < |order| then Some(ReadField(config, order[k]).error) else None)
    decreases |order|
  {
    if order == [] {
    } else if ReadField(config, order[0]).Failure? {
      assert order[..0] == [];
    } else {
      var v := ReadField(config, order[0]).value;
      var k := FirstFailure(config, order[1..]);
      AssignStops(values[order[0] := v], config, order[1..]);
      assert order[..k + 1][0] == order[0] && order[..k + 1][1..] == order[1..][..k];
      if k < |order[1..]| {
        assert order[k + 1] == order[1..][k];
      }
    }
  }

  /** Both orders hold every field. */
  lemma OrdersHold(f: Field)
    ensures f in InitOrder && f in UpdateOrder
  {
    match f
    case JobName => assert InitOrder[0] == f == UpdateOrder[0];
    case JobDescription => assert InitOrder[1] == f == UpdateOrder[1];
    case CompanyName => assert InitOrder[2] == f == UpdateOrder[2];
    case CompanyDescription => assert InitOrder[3] == f == UpdateOrder[3];
    case Resume => assert InitOrder[4] == f == UpdateOrder[5];
    case CompanyWebsite => assert InitOrder[5] == f == UpdateOrder[4];
  }

  /** Two orders over the same fields succeed together and then load the
      same values. */
  lemma SameFields(values: map<Field, string>, config: Ini, order: seq<Field>, order': seq<Field>)
    requires forall g :: g in order <==> g in order'
    ensures Assign(values, config, order).error.None? <==> Assign(values, config, order').error.None?
    ensures Assign(values, config, order).error.None? ==>
              Assign(values, config, order).values == Assign(values, config, order').values
  {
    var l, l' := Assign(values, config, order), Assign(values, config, order');
    AssignSucceeds(values, config, order);
    AssignSucceeds(values, config, order');
    if l.error.None? {
      forall f | true ensures (f in l.values <==> f in l'.values) && (f in l.values ==> l.values[f] == l'.values[f]) {
        AssignValue(values, config, order, f);
        AssignValue(values, config, order', f);
      }
    }
  }

  /** `update_truth` only reorders `__init__`'s last two reads: both succeed
      on the same configurations and then load the same values. */
  lemma OrdersAgree(values: map<Field, string>, config: Ini)
    ensures Assign(values, config, InitOrder).error.None? <==> Assign(values, config, UpdateOrder).error.None?
    ensures Assign(values, config, InitOrder).error.None? ==>
              Assign(values, config, InitOrder).values == Assign(values, config, UpdateOrder).values
  {
    forall g | true ensures g in InitOrder <==> g in UpdateOrder {
      OrdersHold(g);
    }
    SameFields(values, config, InitOrder, UpdateOrder);
  }

  /** A successful `__init__` holds, in every field, that field's stripped
      configuration value. */
  lemma InitLoadsEveryField(config: Ini, f: Field)
    requires Assign(EmptyValues, config, InitOrder).error.None?
    ensures ReadField(config, f).Success?
    ensures f in Assign(EmptyValues, config, InitOrder).values
            && Assign(EmptyValues, config, InitOrder).values[f] == ReadField(config, f).value
  {
    OrdersHold(f);
    AssignSucceeds(EmptyValues, config, InitOrder);
    AssignValue(EmptyValues, config, InitOrder, f);
  }

  /** A value written by `update_ssot_ini_info` and read back into the
      object comes back in its quotes. */
  lemma WrittenReadsQuoted(kwargs: ODict<string>, parser: Ini, shared: Ini, i: nat, f: Field)
    requires UpdateSpec(kwargs, parser).Success? && DistinctKeys(kwargs) && i < |kwargs|
    requires kwargs[i].0 == Key(f)
    ensures ReadField(Merge(shared, UpdateSpec(kwargs, parser).value), f) == Success(Quote(kwargs[i].1))
  {
    FieldKeys(f, f);
    UpdateWrites(kwargs, parser, i);
    MergeLookup(shared, UpdateSpec(kwargs, parser).value, Location(f).0, Location(f).1);
    StripQuote(kwargs[i].1);
  }

  /** `single_source_of_truth.config_obj`: one parser shared by every instance. */
  class SharedConfig {
    var sections: Ini

    constructor()
      ensures sections == map[]
    {
      sections := map[];
    }

    /** `config_obj.read(path)` on a file holding `file`. */
    method Read(file: Ini)
      modifies this
      ensures sections == Merge(old(sections), file)
    {
      sections := Merge(sections, file);
    }
  }

  class SingleSourceOfTruth {
    const config: SharedConfig
    var jobName: string
    var jobDescription: string
    var companyName: string
    var companyDescription: string
    var resume: string
    var companyWebsite: string

    function Values(): map<Field, string>
      reads this
    {
      map[JobName := jobName, JobDescription := jobDescription, CompanyName := companyName,
          CompanyDescription := companyDescription, Resume := resume, CompanyWebsite := companyWebsite]
    }

    /** The attribute holding field `f`. */
    function Value(f: Field): string
      reads this
    {
      match f
      case JobName => jobName
      case JobDescription => jobDescription
      case CompanyName => companyName
      case CompanyDescription => companyDescription
      case Resume => resume
      case CompanyWebsite => companyWebsite
    }

    /** The object before `__init__`'s assignments. Its values are never
        observed: `__init__` assigns all six fields or raises. */
    constructor Blank(config: SharedConfig)
      ensures this.config == config && Values() == EmptyValues
    {
      this.config := config;
      jobName, jobDescription, companyName := "", "", "";
      companyDescription, resume, companyWebsite := "", "", "";
    }

    /** `__init__`: reads the file into the shared parser and assigns the
        fields; a missing section or option raises, and no object results. */
    static method New(config: SharedConfig, file: Ini) returns (r: Result<SingleSourceOfTruth>)
      modifies config
      ensures config.sections == Merge(old(config.sections), file)
      ensures var l := Assign(EmptyValues, config.sections, InitOrder);
              (r.Success? <==> l.error.None?)
              && (r.Failure? ==> Some(r.error) == l.error)
              && (r.Success? ==> fresh(r.value) && r.value.config == config && r.value.Values() == l.values)
    {
      config.Read(file);
      var truth := new SingleSourceOfTruth.Blank(config);
      var error := truth.Load(InitOrder);
      if error.Some? {
        return Failure(error.value);
      }
      return Success(truth);
    }

    /** `update_truth`: reads the file again and reassigns the fields; the
        fields assigned before a failing read keep their new values. */
    method UpdateTruth(file: Ini) returns (error: Option<string>)
      modifies this, config
      ensures config.sections == Merge(old(config.sections), file)
      ensures Loading(Values(), error) == Assign(old(Values()), config.sections, UpdateOrder)
    {
      config.Read(file);
      error := Load(UpdateOrder);
    }

    method Load(order: seq<Field>) returns (error: Option<string>)
      modifies this
      ensures Loading(Values(), error) == Assign(old(Values()), config.sections, order)
    {
      for i := 0 to |order|
        invariant Assign(old(Values()), config.sections, order) == Assign(Values(), config.sections, order[i..])
      {
        assert order[i..][0] == order[i] && order[i..][1..] == order[i + 1..];
        var v := ReadField(config.sections, order[i]);
        if v.Failure? {
          return Some(v.error);
        }
        Set(order[i], v.value);
      }
      return None;
    }

    method Set(f: Field, v: string)
      modifies this
      ensures Values() == old(Values())[f := v]
    {
      match f
      case JobName => jobName := v;
      case JobDescription => jobDescription := v;
      case CompanyName => companyName := v;
      case CompanyDescription => companyDescription := v;
      case Resume => resume := v;
      case CompanyWebsite => companyWebsite := v;
    }
  }
}
