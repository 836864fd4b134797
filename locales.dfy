/**
 * The per-language Lodestone hosts, the URL of a database page in each
 * language, and the database id read from a page's embed code.
 */
module Locales {
  import opened Wrappers
  import opened Text
  import opened Seqs

  /** `LANG_HOSTS`. */
  const LangHosts: map<string, string> := map[
    "en" := "na.finalfantasyxiv.com",
    "ja" := "jp.finalfantasyxiv.com",
    "fr" := "fr.finalfantasyxiv.com",
    "de" := "de.finalfantasyxiv.com"
  ]

  /** The keys of `LANG_HOSTS` in the order the dict literal gives them (the iteration order). */
  const Langs: seq<string> := ["en", "ja", "fr", "de"]

  lemma LangsAreHosts()
    ensures forall l :: l in Langs <==> l in LangHosts
    ensures forall i, j :: 0 <= i < j < |Langs| ==> Langs[i] != Langs[j]
  {
  }

  /**
   * make_lang_url: `urlunparse(("http", host, rel_link, "", "", ""))`, which
   * puts a `/` before a non-empty path that lacks one. The URL is the
   * language's host followed by the link as an absolute path.
   */
  function LangUrl(lang: string, relLink: string): (url: string)
    requires lang in LangHosts
    ensures var prefix := "http://" + LangHosts[lang];
      && StartsWith(url, prefix)
      && |url| == |prefix| + |relLink| + (if relLink != [] && relLink[0] != '/' then 1 else 0)
      && (relLink == [] ==> url == prefix)
      && (relLink != [] && relLink[0] == '/' ==> url[|prefix|..] == relLink)
      && (relLink != [] && relLink[0] != '/' ==> url[|prefix|] == '/' && url[|prefix| + 1..] == relLink)
  {
    var path := if relLink != [] && relLink[0] != '/' then "/" + relLink else relLink;
    "http://" + LangHosts[lang] + path
  }

  /** One page is requested per language, at four different URLs. */
  lemma LangUrlsDistinct(l1: string, l2: string, relLink: string)
    requires l1 in LangHosts && l2 in LangHosts && l1 != l2
    ensures LangUrl(l1, relLink) != LangUrl(l2, relLink)
  {
    assert LangUrl(l1, relLink)[7] == LangHosts[l1][0];
    assert LangUrl(l2, relLink)[7] == LangHosts[l2][0];
  }

  predicate IsLowerLetter(c: char) {
    'a' <= c <= 'z'
  }

  /** `[a-z]+`. */
  predicate LowerWord(s: string) {
    |s| > 0 && forall i :: 0 <= i < |s| ==> IsLowerLetter(s[i])
  }

  /** `[0-9a-f]`. */
  predicate IsLowerHex(c: char) {
    IsDigit(c) || 'a' <= c <= 'f'
  }

  const EmbedPrefix: string := "[db:"

  /**
   * `EMBED_CODE_RE.match(code).group(1)` for `\[db:[a-z]+=([0-9a-f]+)]`:
   * anchored at the start, not at the end; None where extract_db_id raises
   * "embed id not found".
   */
  function MatchDbId(code: string): (r: Option<string>)
    ensures r.Some? ==> |r.value| > 0 && forall i :: 0 <= i < |r.value| ==> IsLowerHex(r.value[i])
  {
    if !StartsWith(code, EmbedPrefix) then None
    else
      var rest := code[|EmbedPrefix|..];
      var kind := Span(rest, IsLowerLetter);
      if kind == 0 || kind == |rest| || rest[kind] != '=' then None
      else
        var tail := rest[kind + 1..];
        var hex := Span(tail, IsLowerHex);
        if hex == 0 || hex == |tail| || tail[hex] != ']' then None
        else Some(tail[..hex])
  }

  /** The id written into a well-formed embed code is the one read back, whatever follows it. */
  lemma MatchDbIdRoundTrip(kind: string, id: string, trailer: string)
    requires LowerWord(kind)
    requires |id| > 0 && forall i :: 0 <= i < |id| ==> IsLowerHex(id[i])
    ensures MatchDbId(EmbedPrefix + kind + "=" + id + "]" + trailer) == Some(id)
  {
    var code := EmbedPrefix + kind + "=" + id + "]" + trailer;
    assert StartsWith(code, EmbedPrefix);
    var rest := code[|EmbedPrefix|..];
    assert rest == kind + "=" + id + "]" + trailer;
    assert forall i :: 0 <= i < |kind| ==> rest[i] == kind[i];
    assert rest[|kind|] == '=';
    SpanOfRun(rest, IsLowerLetter, |kind|);
    var tail := rest[|kind| + 1..];
    assert tail == id + "]" + trailer;
    assert forall i :: 0 <= i < |id| ==> tail[i] == id[i];
    assert tail[|id|] == ']';
    SpanOfRun(tail, IsLowerHex, |id|);
    assert tail[..|id|] == id;
  }

  /** A run of `k` accepted characters followed by a rejected one spans exactly `k`. */
  lemma SpanOfRun(s: string, p: char -> bool, k: nat)
    requires k < |s| && (forall i :: 0 <= i < k ==> p(s[i])) && !p(s[k])
    ensures Span(s, p) == k
  {
  }

  /** Conversely, an id is read back only from a code of the form `[db:kind=id]...`. */
  lemma MatchDbIdShape(code: string)
    requires MatchDbId(code).Some?
    ensures exists kind: string, trailer: string ::
      LowerWord(kind) && code == EmbedPrefix + (kind + ("=" + (MatchDbId(code).value + ("]" + trailer))))
  {
    var rest := code[|EmbedPrefix|..];
    var k := Span(rest, IsLowerLetter);
    var kind := rest[..k];
    var tail := rest[k + 1..];
    var h := Span(tail, IsLowerHex);
    var id := tail[..h];
    var trailer := tail[h + 1..];
    assert MatchDbId(code) == Some(id);
    SplitAround(tail, h);
    SplitAround(rest, k);
    assert code == EmbedPrefix + rest by {
      assert code == code[..|EmbedPrefix|] + code[|EmbedPrefix|..];
    }
    assert LowerWord(kind);
    assert code == EmbedPrefix + (kind + ("=" + (id + ("]" + trailer))));
  }

  lemma SplitAround(s: string, k: nat)
    requires k < |s|
    ensures s == s[..k] + ([s[k]] + s[k + 1..])
  {
  }

  /** `str(heading).strip()`: a page's item name. */
  function HeadingName(heading: string): string {
    Strip(heading)
  }

  /** Each page's heading, by language. */
  function Headings<P>(pages: map<string, P>, heading: P -> string): (h: map<string, string>)
    ensures h.Keys == pages.Keys
  {
    map l | l in pages :: heading(pages[l])
  }

  /** `name[lang] = heading.strip()` for each language of `langs`, from that language's page. */
  function NamesOf(headings: map<string, string>, langs: seq<string>): (names: map<string, string>)
    requires forall l :: l in langs ==> l in headings
    ensures names.Keys == set l | l in langs
    ensures forall l :: l in langs ==> names[l] == HeadingName(headings[l])
  {
    Restrict(map l | l in headings :: HeadingName(headings[l]), langs)
  }

  /** The loop over LANG_HOSTS that sets `name[lang]` from each language's page. */
  method CollectNames(headings: map<string, string>) returns (names: map<string, string>)
    requires forall l :: l in Langs ==> l in headings
    ensures names == NamesOf(headings, Langs)
  {
    names := map[];
    for i := 0 to |Langs|
      invariant names == NamesOf(headings, Langs[..i])
    {
      RestrictSnoc(map l | l in headings :: HeadingName(headings[l]), Langs, i);
      names := names[Langs[i] := HeadingName(headings[Langs[i]])];
    }
    assert Langs[..|Langs|] == Langs;
  }

  /** A record is named in every language of LANG_HOSTS, each by its own page's heading. */
  lemma NamesInEveryLanguage(headings: map<string, string>)
    requires forall l :: l in Langs ==> l in headings
    ensures var names := NamesOf(headings, Langs);
      && names.Keys == LangHosts.Keys
      && forall l :: l in LangHosts ==> names[l] == HeadingName(headings[l])
  {
    LangsAreHosts();
  }
}
