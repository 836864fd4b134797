/**
 * The additional-language name overrides: the `LANG=FILE` arguments, the
 * mapping loaded per language, and the merge that sets
 * `name[lang] = mapping.get(name["en"]) or name["en"]` for each loaded
 * language, in place, on every record of a list.
 */
module Languages {
  import opened Wrappers

  /** Position of the first `c` in `s`, or `|s|` when there is none. */
  function IndexOf(s: string, c: char): (i: nat)
    ensures i <= |s| && (i < |s| ==> s[i] == c)
    ensures forall j :: 0 <= j < i ==> s[j] != c
  {
    if s == [] then 0
    else if s[0] == c then 0
    else IndexOf(s[1..], c) + 1
  }

  /** `s.split(sep, maxsplit)` for a one-character separator. */
  function SplitMax(s: string, sep: char, maxsplit: nat): (parts: seq<string>)
    ensures |parts| >= 1
    decreases |s|
  {
    var i := IndexOf(s, sep);
    if maxsplit == 0 || i == |s| then [s]
    else [s[..i]] + SplitMax(s[i + 1..], sep, maxsplit - 1)
  }

  /** How many times `c` occurs in `s`. */
  function Occurrences(s: string, c: char): nat {
    if s == [] then 0
    else (if s[0] == c then 1 else 0) + Occurrences(s[1..], c)
  }

  /** Everything before the first occurrence of `c` is free of it. */
  lemma {:induction false} OccurrencesAround(s: string, c: char)
    ensures var i := IndexOf(s, c);
      Occurrences(s, c) == if i == |s| then 0 else 1 + Occurrences(s[i + 1..], c)
  {
    if s != [] && s[0] != c {
      OccurrencesAround(s[1..], c);
      var i := IndexOf(s[1..], c);
      if i < |s[1..]| {
        assert s[1..][i + 1..] == s[i + 2..];
      }
    }
  }

  /**
   * `lang, path = arg.split("=", 2)` unpacks exactly when the argument holds
   * one `=`; it then splits the argument around it.
   */
  lemma SplitArgument(arg: string)
    ensures |SplitMax(arg, '=', 2)| == 2 <==> Occurrences(arg, '=') == 1
    ensures |SplitMax(arg, '=', 2)| == 2 ==>
      var parts := SplitMax(arg, '=', 2);
      && arg == parts[0] + "=" + parts[1]
      && Occurrences(parts[0], '=') == 0 && Occurrences(parts[1], '=') == 0
  {
    OccurrencesAround(arg, '=');
    var i := IndexOf(arg, '=');
    if i < |arg| {
      var rest := arg[i + 1..];
      OccurrencesAround(rest, '=');
      OccurrencesAround(arg[..i], '=');
      assert arg == arg[..i] + "=" + rest;
    }
  }

  /** The `(lang, path)` pair an argument unpacks into, or None where the unpacking raises. */
  function LangAndPath(arg: string): Option<(string, string)> {
    var parts := SplitMax(arg, '=', 2);
    if |parts| == 2 then Some((parts[0], parts[1])) else None
  }

  /**
   * The dict `additional_languages`: its keys in iteration order (the order
   * each was first inserted) and the mapping loaded for each.
   */
  datatype Languages = Languages(order: seq<string>, mappings: map<string, map<string, string>>)

  /** The keys are listed once each, and the listed keys are the dict's keys. */
  predicate WellFormed(ls: Languages) {
    && (forall i, j :: 0 <= i < j < |ls.order| ==> ls.order[i] != ls.order[j])
    && (forall i :: 0 <= i < |ls.order| ==> ls.order[i] in ls.mappings)
    && (forall l :: l in ls.mappings ==> l in ls.order)
  }

  /** `additional_languages[lang] = mapping`: a new key goes last, a present one keeps its place. */
  function AddLanguage(ls: Languages, lang: string, mapping: map<string, string>): Languages {
    if lang in ls.mappings then ls.(mappings := ls.mappings[lang := mapping])
    else Languages(ls.order + [lang], ls.mappings[lang := mapping])
  }

  /** Why loading stopped: an argument that does not unpack, or a file that cannot be opened. */
  datatype LoadError = BadArgument(arg: string) | MissingFile(path: string)

  /**
   * The loading loop over the arguments, given the parsed content of every
   * file that can be opened (`files`, by path); the first failure aborts.
   * Each argument adds at most one language, and a failure names an
   * argument or the path one of them gives.
   */
  function Loaded(args: seq<string>, files: map<string, map<string, string>>): (r: Result<Languages, LoadError>)
    ensures r.Ok? ==> |r.value.order| <= |args|
    ensures r.Err? && r.error.BadArgument? ==> r.error.arg in args
  {
    if args == [] then Ok(Languages([], map[]))
    else
      var n := |args| - 1;
      match Loaded(args[..n], files)
      case Err(e) => Err(e)
      case Ok(ls) =>
        match LangAndPath(args[n])
        case None => Err(BadArgument(args[n]))
        case Some((lang, path)) =>
          if path !in files then Err(MissingFile(path))
          else Ok(AddLanguage(ls, lang, files[path]))
  }

  /** load_additional_languages / the loop at the top of add_other_lang's main. */
  method LoadLanguages(args: seq<string>, files: map<string, map<string, string>>)
      returns (r: Result<Languages, LoadError>)
    ensures r == Loaded(args, files)
  {
    var additional := Languages([], map[]);
    for i := 0 to |args|
      invariant Loaded(args[..i], files) == Ok(additional)
    {
      assert args[..i + 1][..i] == args[..i];
      var split := LangAndPath(args[i]);
      if split.None? {
        assert Loaded(args, files) == Err(BadArgument(args[i])) by {
          LoadedStopsAtError(args, files, i + 1);
        }
        return Err(BadArgument(args[i]));
      }
      var (lang, path) := split.value;
      if path !in files {
        assert Loaded(args, files) == Err(MissingFile(path)) by {
          LoadedStopsAtError(args, files, i + 1);
        }
        return Err(MissingFile(path));
      }
      additional := AddLanguage(additional, lang, files[path]);
    }
    assert args[..|args|] == args;
    return Ok(additional);
  }

  /** Once a prefix of the arguments fails, the whole run fails with the same error. */
  lemma {:induction false} LoadedStopsAtError(args: seq<string>, files: map<string, map<string, string>>, k: nat)
    requires k <= |args| && Loaded(args[..k], files).Err?
    ensures Loaded(args, files) == Loaded(args[..k], files)
    decreases |args| - k
  {
    if k < |args| {
      assert args[..k + 1][..k] == args[..k];
      LoadedStopsAtError(args, files, k + 1);
    } else {
      assert args[..k] == args;
    }
  }
  /** The argument unpacks, and names a file that can be opened. */
  predicate Loadable(arg: string, files: map<string, map<string, string>>) {
    LangAndPath(arg).Some? && LangAndPath(arg).value.1 in files
  }

  /** The argument unpacks into `lang=...`. */
  predicate Names(arg: string, lang: string) {
    LangAndPath(arg).Some? && LangAndPath(arg).value.0 == lang
  }

  /** Loading succeeds exactly when every argument unpacks and names a file that opens. */
  lemma {:induction false} LoadedOkIff(args: seq<string>, files: map<string, map<string, string>>)
    ensures Loaded(args, files).Ok? <==> forall i :: 0 <= i < |args| ==> Loadable(args[i], files)
  {
    if args != [] {
      var n := |args| - 1;
      LoadedOkIff(args[..n], files);
      assert forall i :: 0 <= i < n ==> args[..n][i] == args[i];
    }
  }

  /** The first argument that fails decides the error: a bad argument, or the path that does not open. */
  lemma LoadedFirstFailure(args: seq<string>, files: map<string, map<string, string>>, k: nat)
    requires k < |args| && !Loadable(args[k], files)
    requires forall i :: 0 <= i < k ==> Loadable(args[i], files)
    ensures LangAndPath(args[k]).None? ==> Loaded(args, files) == Err(BadArgument(args[k]))
    ensures LangAndPath(args[k]).Some? ==> Loaded(args, files) == Err(MissingFile(LangAndPath(args[k]).value.1))
  {
    assert forall i :: 0 <= i < k ==> args[..k][i] == args[i];
    LoadedOkIff(args[..k], files);
    assert args[..k + 1][..k] == args[..k];
    LoadedStopsAtError(args, files, k + 1);
  }

  /** Adding keeps the dict well-formed and adds exactly its language; a present one keeps its place. */
  lemma AddLanguageSpec(ls: Languages, lang: string, mapping: map<string, string>)
    requires WellFormed(ls)
    ensures var ls' := AddLanguage(ls, lang, mapping);
      && WellFormed(ls')
      && ls'.mappings.Keys == ls.mappings.Keys + {lang}
      && ls'.mappings[lang] == mapping
      && (forall l :: l in ls.mappings && l != lang ==> ls'.mappings[l] == ls.mappings[l])
      && (lang in ls.mappings ==> ls'.order == ls.order)
      && (lang !in ls.mappings ==> ls'.order == ls.order + [lang])
  {
  }

  /**
   * Loading yields a well-formed dict holding exactly the languages the
   * arguments name.
   */
  lemma {:induction false} LoadedLanguages(args: seq<string>, files: map<string, map<string, string>>)
    requires Loaded(args, files).Ok?
    ensures WellFormed(Loaded(args, files).value)
    ensures forall l :: l in Loaded(args, files).value.mappings <==> exists i :: 0 <= i < |args| && Names(args[i], l)
  {
    if args != [] {
      var n := |args| - 1;
      var init := args[..n];
      assert Loaded(init, files).Ok?;
      LoadedLanguages(init, files);
      var ls0 := Loaded(init, files).value;
      var (lang, path) := LangAndPath(args[n]).value;
      var ls := Loaded(args, files).value;
      assert ls == AddLanguage(ls0, lang, files[path]);
      AddLanguageSpec(ls0, lang, files[path]);
      NamedLanguagesStep(args, init, ls0.mappings.Keys, ls.mappings.Keys);
    }
  }

  /** The languages named by all the arguments are those named before the last one, plus the last one's. */
  lemma NamedLanguagesStep(args: seq<string>, init: seq<string>, before: set<string>, after: set<string>)
    requires |args| > 0 && init == args[..|args| - 1] && LangAndPath(args[|args| - 1]).Some?
    requires after == before + {LangAndPath(args[|args| - 1]).value.0}
    requires forall l :: l in before <==> exists i :: 0 <= i < |init| && Names(init[i], l)
    ensures forall l :: l in after <==> exists i :: 0 <= i < |args| && Names(args[i], l)
  {
    var n := |args| - 1;
    forall l ensures l in after <==> exists i :: 0 <= i < |args| && Names(args[i], l)
    {
      if l in after {
        if l in before {
          var i :| 0 <= i < n && Names(init[i], l);
          assert Names(args[i], l);
        } else {
          assert Names(args[n], l);
        }
      }
      if exists i :: 0 <= i < |args| && Names(args[i], l) {
        var i :| 0 <= i < |args| && Names(args[i], l);
        if i < n {
          assert Names(init[i], l);
        }
      }
    }
  }

  /**
   * `additional_languages[lang] = json.load(f)` overwrites: a language holds
   * the file of the last argument that names it.
   */
  lemma {:induction false} LaterFileWins(args: seq<string>, files: map<string, map<string, string>>, i: nat, lang: string)
    requires Loaded(args, files).Ok? && i < |args| && Names(args[i], lang)
    requires forall j :: i < j < |args| ==> !Names(args[j], lang)
    ensures LangAndPath(args[i]).value.1 in files
    ensures var ls := Loaded(args, files).value;
      lang in ls.mappings && ls.mappings[lang] == files[LangAndPath(args[i]).value.1]
  {
    LoadedOkIff(args, files);
    var n := |args| - 1;
    if i < n {
      assert args[..n][i] == args[i];
      assert forall j :: i < j < n ==> args[..n][j] == args[j];
      LaterFileWins(args[..n], files, i, lang);
      assert !Names(args[n], lang);
    }
  }

  /**
   * A language keeps the place of its first insertion: the order reached
   * after any prefix of the arguments is a prefix of the final order.
   */
  lemma {:induction false} FirstPlaceKept(args: seq<string>, files: map<string, map<string, string>>, k: nat)
    requires Loaded(args, files).Ok? && k <= |args|
    ensures Loaded(args[..k], files).Ok?
    ensures Loaded(args[..k], files).value.order <= Loaded(args, files).value.order
  {
    if k == |args| {
      assert args[..k] == args;
    } else {
      var n := |args| - 1;
      assert args[..n][..k] == args[..k];
      FirstPlaceKept(args[..n], files, k);
    }
  }

  /** `names.get(english_name) or english_name`: an absent or empty translation falls back to English. */
  function PickName(mapping: map<string, string>, english: string): string {
    if english in mapping && mapping[english] != "" then mapping[english] else english
  }

  /** Every language of the order has a loaded mapping (as `additional_languages.keys()` guarantees). */
  predicate OrderLoaded(ls: Languages, k: nat) {
    k <= |ls.order| && forall i :: 0 <= i < k ==> ls.order[i] in ls.mappings
  }

  /**
   * A record's `name` dict after the first `k` languages of the loop
   * `for lang in additional_languages.keys()` have set
   * `name[lang] = names.get(name["en"]) or name["en"]`, each reading the
   * English name as the earlier steps left it.
   */
  function Overridden(name: map<string, string>, ls: Languages, k: nat): (r: map<string, string>)
    requires "en" in name && OrderLoaded(ls, k)
    ensures "en" in r
  {
    if k == 0 then name
    else
      var prev := Overridden(name, ls, k - 1);
      var lang := ls.order[k - 1];
      prev[lang := PickName(ls.mappings[lang], prev["en"])]
  }

  /** The inner `for lang in additional_languages.keys()` loop on one record's `name`. */
  method OverrideName(name: map<string, string>, ls: Languages) returns (name': map<string, string>)
    requires "en" in name && WellFormed(ls)
    ensures OrderLoaded(ls, |ls.order|)
    ensures name' == Overridden(name, ls, |ls.order|)
  {
    assert OrderLoaded(ls, |ls.order|);
    name' := name;
    for i := 0 to |ls.order|
      invariant OrderLoaded(ls, i)
      invariant name' == Overridden(name, ls, i)
    {
      assert OrderLoaded(ls, i + 1);
      var names := ls.mappings[ls.order[i]];
      var englishName := name'["en"];
      name' := name'[ls.order[i] := PickName(names, englishName)];
    }
  }

  /** Keys that are not loaded languages keep their presence and value. */
  lemma {:induction false} OverriddenKeepsOthers(name: map<string, string>, ls: Languages, k: nat, key: string)
    requires "en" in name && OrderLoaded(ls, k)
    requires forall i :: 0 <= i < k ==> ls.order[i] != key
    ensures key in Overridden(name, ls, k) <==> key in name
    ensures key in name ==> Overridden(name, ls, k)[key] == name[key]
  {
    if k > 0 {
      OverriddenKeepsOthers(name, ls, k - 1, key);
    }
  }

  /**
   * When "en" is not a loaded language, every step reads the original
   * English name: each loaded language gets its translation of it (or the
   * English name), and every other key is unchanged.
   */
  lemma {:induction false} OverriddenClosedForm(name: map<string, string>, ls: Languages, k: nat)
    requires "en" in name && OrderLoaded(ls, k)
    requires forall i :: 0 <= i < k ==> ls.order[i] != "en"
    ensures var r := Overridden(name, ls, k);
      && r["en"] == name["en"]
      && forall i :: 0 <= i < k ==> ls.order[i] in r && r[ls.order[i]] == PickName(ls.mappings[ls.order[i]], name["en"])
  {
    if k > 0 {
      OverriddenClosedForm(name, ls, k - 1);
      var prev := Overridden(name, ls, k - 1);
      var r := Overridden(name, ls, k);
      var lang := ls.order[k - 1];
      forall i | 0 <= i < k ensures ls.order[i] in r && r[ls.order[i]] == PickName(ls.mappings[ls.order[i]], name["en"]) {
        if ls.order[i] != lang {
          assert r[ls.order[i]] == prev[ls.order[i]];
        }
      }
    }
  }

  /** Without "en" among the loaded languages, running the merge again changes nothing. */
  lemma OverrideIdempotent(name: map<string, string>, ls: Languages)
    requires "en" in name && WellFormed(ls) && "en" !in ls.mappings
    ensures OrderLoaded(ls, |ls.order|)
    ensures var once := Overridden(name, ls, |ls.order|);
      Overridden(once, ls, |ls.order|) == once
  {
    var n := |ls.order|;
    var once := Overridden(name, ls, n);
    OverriddenKeys(name, ls);
    OverriddenValue(name, ls, "en");
    var twice := Overridden(once, ls, n);
    OverriddenKeys(once, ls);
    forall key | key in twice ensures twice[key] == once[key] {
      OverriddenValue(once, ls, key);
      OverriddenValue(name, ls, key);
    }
  }

  /**
   * Without "en" among the loaded languages, the order in which the
   * languages were loaded does not matter: the same mappings give the same
   * names.
   */
  lemma OverrideOrderIndependent(name: map<string, string>, ls1: Languages, ls2: Languages)
    requires "en" in name && WellFormed(ls1) && WellFormed(ls2)
    requires ls1.mappings == ls2.mappings && "en" !in ls1.mappings
    ensures OrderLoaded(ls1, |ls1.order|) && OrderLoaded(ls2, |ls2.order|)
    ensures Overridden(name, ls1, |ls1.order|) == Overridden(name, ls2, |ls2.order|)
  {
    var r1, r2 := Overridden(name, ls1, |ls1.order|), Overridden(name, ls2, |ls2.order|);
    OverriddenKeys(name, ls1);
    OverriddenKeys(name, ls2);
    forall key | key in r1 ensures r1[key] == r2[key] {
      OverriddenValue(name, ls1, key);
      OverriddenValue(name, ls2, key);
    }
  }

  /** After `k` steps the name has the record's keys plus the first `k` languages. */
  lemma {:induction false} OverriddenKeysAt(name: map<string, string>, ls: Languages, k: nat)
    requires "en" in name && OrderLoaded(ls, k)
    ensures forall key :: key in Overridden(name, ls, k) <==> key in name || key in ls.order[..k]
  {
    if k > 0 {
      OverriddenKeysAt(name, ls, k - 1);
      assert ls.order[..k] == ls.order[..k - 1] + [ls.order[k - 1]];
    }
  }

  /** The merged name has the record's keys plus every loaded language. */
  lemma OverriddenKeys(name: map<string, string>, ls: Languages)
    requires "en" in name && WellFormed(ls)
    ensures OrderLoaded(ls, |ls.order|)
    ensures Overridden(name, ls, |ls.order|).Keys == name.Keys + ls.mappings.Keys
  {
    OverriddenKeysAt(name, ls, |ls.order|);
    assert ls.order[..|ls.order|] == ls.order;
  }

  /** Without "en" loaded, a merged value depends only on the key, the mappings and the English name. */
  lemma OverriddenValue(name: map<string, string>, ls: Languages, key: string)
    requires "en" in name && WellFormed(ls) && "en" !in ls.mappings
    requires key in name || key in ls.mappings
    ensures OrderLoaded(ls, |ls.order|)
    ensures key in Overridden(name, ls, |ls.order|)
    ensures Overridden(name, ls, |ls.order|)[key]
      == if key in ls.mappings then PickName(ls.mappings[key], name["en"]) else name[key]
  {
    OverriddenKeys(name, ls);
    if key in ls.mappings {
      OverriddenClosedForm(name, ls, |ls.order|);
      var i :| 0 <= i < |ls.order| && ls.order[i] == key;
    } else {
      OverriddenKeepsOthers(name, ls, |ls.order|, key);
    }
  }

  /**
   * With "en" itself loaded, the English name is rewritten in place and the
   * merge is not idempotent: under the mapping A -> B, B -> C the name "A"
   * becomes "B", then "C".
   */
  lemma EnglishLoadedChains()
    ensures var ls := Languages(["en"], map["en" := map["A" := "B", "B" := "C"]]);
      var once := Overridden(map["en" := "A"], ls, 1);
      && OrderLoaded(ls, 1)
      && once == map["en" := "B"]
      && Overridden(once, ls, 1) == map["en" := "C"]
  {
    var ls := Languages(["en"], map["en" := map["A" := "B", "B" := "C"]]);
    assert ls.mappings["en"] == map["A" := "B", "B" := "C"];
    assert Overridden(map["en" := "A"], ls, 0) == map["en" := "A"];
    assert Overridden(map["en" := "B"], ls, 0) == map["en" := "B"];
  }

  /** One entry of an output JSON file: its `name` dict and all its other keys. */
  datatype NamedRecord<R> = NamedRecord(name: map<string, string>, other: R)

  /**
   * add_other_lang's `for recipe in recipes` loop: every record's `name` is
   * merged in place; the list keeps its length and order and every record
   * its other keys.
   */
  method OverrideRecords<R>(records: seq<NamedRecord<R>>, ls: Languages) returns (merged: seq<NamedRecord<R>>)
    requires WellFormed(ls)
    requires forall i :: 0 <= i < |records| ==> "en" in records[i].name
    ensures OrderLoaded(ls, |ls.order|)
    ensures |merged| == |records|
    ensures forall i :: 0 <= i < |records| ==>
      merged[i] == NamedRecord(Overridden(records[i].name, ls, |ls.order|), records[i].other)
  {
    merged := records;
    for i := 0 to |records|
      invariant |merged| == |records|
      invariant forall j :: 0 <= j < i ==>
        merged[j] == NamedRecord(Overridden(records[j].name, ls, |ls.order|), records[j].other)
      invariant forall j :: i <= j < |records| ==> merged[j] == records[j]
    {
      var name := OverrideName(merged[i].name, ls);
      merged := merged[i := merged[i].(name := name)];
    }
  }
}
