/**
 * The disk-backed response cache: the key of a request (SHA-1 over the URL
 * and its keyword arguments in sorted name order), lookup with 12-hour
 * expiry that deletes a stale file, and store.
 *
 * The `.cache/` directory is the map `files` from file name (the key) to the
 * file's modification time and content. SHA-1 is a function parameter about
 * which nothing is assumed; the clock is a parameter in seconds.
 */
module ResponseCache {
  import opened Wrappers
  import opened Text
  import opened Ordering

  /** One keyword argument of a fetch call: its name and its value as `str()` renders it. */
  datatype Kwarg = Kwarg(name: string, rendered: string)

  /** Keyword argument names of one call never repeat. */
  predicate DistinctNames(kwargs: seq<Kwarg>) {
    forall i, j :: 0 <= i < j < |kwargs| ==> kwargs[i].name != kwargs[j].name
  }

  /** `list(kwargs.keys())`: the names in call order. */
  function Names(kwargs: seq<Kwarg>): (r: seq<string>)
    ensures |r| == |kwargs| && forall i :: 0 <= i < |r| ==> r[i] == kwargs[i].name
  {
    seq(|kwargs|, i requires 0 <= i < |kwargs| => kwargs[i].name)
  }

  /** The keyword arguments as the dictionary `kwargs`. */
  function ToMap(kwargs: seq<Kwarg>): (m: map<string, string>)
    ensures m.Keys == set i | 0 <= i < |kwargs| :: kwargs[i].name
  {
    if kwargs == [] then map[]
    else
      var n := |kwargs| - 1;
      var m := ToMap(kwargs[..n])[kwargs[n].name := kwargs[n].rendered];
      assert forall i :: 0 <= i < n ==> kwargs[..n][i] == kwargs[i];
      m
  }

  lemma {:induction false} ToMapValue(kwargs: seq<Kwarg>, i: nat)
    requires DistinctNames(kwargs) && i < |kwargs|
    ensures ToMap(kwargs)[kwargs[i].name] == kwargs[i].rendered
  {
    var n := |kwargs| - 1;
    assert ToMap(kwargs) == ToMap(kwargs[..n])[kwargs[n].name := kwargs[n].rendered];
    if i < n {
      var init := kwargs[..n];
      assert init[i] == kwargs[i] && kwargs[i].name != kwargs[n].name;
      assert DistinctNames(init) by {
        assert forall a :: 0 <= a < n ==> init[a] == kwargs[a];
      }
      ToMapValue(init, i);
    }
  }

  /** Strings sort by their own text alone. */
  function NameKey(name: string): SortKey {
    SortKey(0, name, false)
  }

  /** `sorted_keys = list(kwargs.keys()); sorted_keys.sort()`. */
  function SortedNames(kwargs: seq<Kwarg>): seq<string> {
    SortBy(Names(kwargs), NameKey, false)
  }

  lemma SortedNamesInMap(kwargs: seq<Kwarg>)
    ensures forall i :: 0 <= i < |SortedNames(kwargs)| ==> SortedNames(kwargs)[i] in ToMap(kwargs)
  {
    var s := SortedNames(kwargs);
    forall i | 0 <= i < |s| ensures s[i] in ToMap(kwargs) {
      assert s[i] in multiset(s);
      assert s[i] in multiset(Names(kwargs));
    }
  }

  /** `(k, kwargs[k])` for each name `k` in sorted order. */
  function SortedPairs(kwargs: seq<Kwarg>): (r: seq<Kwarg>)
    ensures |r| == |SortedNames(kwargs)|
  {
    var names := SortedNames(kwargs);
    var values := ToMap(kwargs);
    SortedNamesInMap(kwargs);
    seq(|names|, i requires 0 <= i < |names| => Kwarg(names[i], values[names[i]]))
  }

  /** `k=v;` for each pair, in order. */
  function Fields(pairs: seq<Kwarg>): string {
    if pairs == [] then ""
    else
      var n := |pairs| - 1;
      Fields(pairs[..n]) + (pairs[n].name + "=" + pairs[n].rendered + ";")
  }

  /** Everything fed to the hasher for one request, in order. */
  function Preimage(url: string, kwargs: seq<Kwarg>): string {
    url + Fields(SortedPairs(kwargs))
  }

  /** Feeding one more sorted name extends the preimage by that name's field. */
  lemma FeedStep(url: string, kwargs: seq<Kwarg>, i: nat)
    requires i < |SortedNames(kwargs)|
    ensures SortedNames(kwargs)[i] in ToMap(kwargs)
    ensures var k := SortedNames(kwargs)[i];
      url + Fields(SortedPairs(kwargs)[..i + 1])
      == url + Fields(SortedPairs(kwargs)[..i]) + (k + "=" + ToMap(kwargs)[k] + ";")
  {
    SortedNamesInMap(kwargs);
    var pairs := SortedPairs(kwargs);
    var k := SortedNames(kwargs)[i];
    var field := k + "=" + ToMap(kwargs)[k] + ";";
    assert pairs[i] == Kwarg(k, ToMap(kwargs)[k]);
    assert pairs[..i + 1][..i] == pairs[..i];
    assert Fields(pairs[..i + 1]) == Fields(pairs[..i]) + field;
    assert url + (Fields(pairs[..i]) + field) == url + Fields(pairs[..i]) + field;
  }

  /**
   * get_cache_key: feeds the URL, then `name=value;` for each keyword
   * argument in sorted name order, to SHA-1.
   */
  method CacheKey(url: string, kwargs: seq<Kwarg>, sha1: string -> string) returns (key: string)
    ensures key == sha1(Preimage(url, kwargs))
  {
    var sortedKeys := SortedNames(kwargs);
    var values := ToMap(kwargs);
    var fed := url;
    var i := 0;
    while i < |sortedKeys|
      invariant 0 <= i <= |sortedKeys|
      invariant fed == url + Fields(SortedPairs(kwargs)[..i])
    {
      var k := sortedKeys[i];
      FeedStep(url, kwargs, i);
      fed := fed + (k + "=" + values[k] + ";");
      i := i + 1;
    }
    assert SortedPairs(kwargs)[..i] == SortedPairs(kwargs);
    key := sha1(fed);
  }

  lemma DistinctMultiplicity(s: seq<string>, x: string)
    requires forall i, j :: 0 <= i < j < |s| ==> s[i] != s[j]
    ensures multiset(s)[x] == if x in s then 1 else 0
  {
    if s != [] {
      assert s == [s[0]] + s[1..];
      DistinctMultiplicity(s[1..], x);
    }
  }

  /**
   * The key does not depend on the order the keyword arguments were
   * written in: two calls with the same names and values give the same
   * preimage, hence the same key.
   */
  lemma PreimageIgnoresKwargOrder(url: string, kw1: seq<Kwarg>, kw2: seq<Kwarg>)
    requires DistinctNames(kw1) && DistinctNames(kw2)
    requires ToMap(kw1) == ToMap(kw2)
    ensures Preimage(url, kw1) == Preimage(url, kw2)
  {
    var n1, n2 := Names(kw1), Names(kw2);
    forall x ensures multiset(n1)[x] == multiset(n2)[x] {
      DistinctMultiplicity(n1, x);
      DistinctMultiplicity(n2, x);
      assert x in n1 <==> x in ToMap(kw1);
      assert x in n2 <==> x in ToMap(kw2);
    }
    assert multiset(n1) == multiset(n2);
    var s1, s2 := SortedNames(kw1), SortedNames(kw2);
    SortBySorted(n1, NameKey, false);
    SortBySorted(n2, NameKey, false);
    SortedUnique(s1, s2, NameKey, false);
  }

  /** A request without keyword arguments is keyed by its URL alone. */
  lemma PreimageWithoutKwargs(url: string)
    ensures Preimage(url, []) == url
  {
  }

  /** CACHE_EXPIRY: 12 hours, in seconds. */
  const CacheExpiry: real := 43200.0

  /** One file of the cache directory. */
  datatype CacheEntry = CacheEntry(mtime: real, text: string)

  /** `st_mtime < time.time() - CACHE_EXPIRY`. */
  predicate Expired(e: CacheEntry, now: real) {
    e.mtime < now - CacheExpiry
  }

  /** What get_cached_text returns, and the directory it leaves behind. */
  datatype LookupResult = LookupResult(text: Option<string>, files: map<string, CacheEntry>)

  /**
   * get_cached_text on a known key: a hit, exactly when the file exists and
   * is not older than 12 hours, returns its text and changes nothing; a
   * miss leaves no file under the key (an expired one is deleted); no other
   * file is touched.
   */
  function LookupFile(files: map<string, CacheEntry>, key: string, now: real): (r: LookupResult)
    ensures r.text.Some? <==> key in files && files[key].mtime >= now - CacheExpiry
    ensures r.text.Some? ==> r.text.value == files[key].text && r.files == files
    ensures r.text.None? ==> key !in r.files
    ensures forall k :: k != key ==> (k in r.files <==> k in files) && (k in files ==> r.files[k] == files[k])
  {
    if key !in files then LookupResult(None, files)
    else if Expired(files[key], now) then LookupResult(None, files - {key})
    else LookupResult(Some(files[key].text), files)
  }

  /** A file written at `t` is still served at every moment up to and including `t` + 12 hours. */
  lemma StoredTextServedUntilExpiry(files: map<string, CacheEntry>, key: string, text: string, t: real, now: real)
    requires now <= t + CacheExpiry
    ensures LookupFile(files[key := CacheEntry(t, text)], key, now).text == Some(text)
  {
  }

  /** A file older than 12 hours is gone after one lookup, and so every later lookup misses too. */
  lemma ExpiredFileDeleted(files: map<string, CacheEntry>, key: string, now: real, later: real)
    requires key in files && files[key].mtime < now - CacheExpiry
    ensures LookupFile(files, key, now).text.None?
    ensures LookupFile(LookupFile(files, key, now).files, key, later) == LookupResult(None, files - {key})
  {
  }

  /** The `.cache/` directory, seen through get_cached_text and cache_text. */
  class Cache {
    /** File name (the request's key) -> modification time and content. */
    var files: map<string, CacheEntry>
    /** `hashlib.sha1(...).hexdigest()` as a function of the bytes fed to it. */
    const sha1: string -> string

    constructor (sha1: string -> string, files: map<string, CacheEntry>)
      ensures this.sha1 == sha1 && this.files == files
    {
      this.sha1 := sha1;
      this.files := files;
    }

    /** get_cached_text(url, **kwargs) at time `now`. */
    method Lookup(url: string, kwargs: seq<Kwarg>, now: real) returns (text: Option<string>)
      modifies this
      ensures var r := LookupFile(old(files), sha1(Preimage(url, kwargs)), now);
        text == r.text && files == r.files
    {
      var key := CacheKey(url, kwargs, sha1);
      if key !in files {
        return None;
      }
      if files[key].mtime < now - CacheExpiry {
        files := files - {key};
        return None;
      }
      text := Some(files[key].text);
    }

    /** cache_text(text, url, **kwargs) at time `now`: the file is (over)written. */
    method Store(text: string, url: string, kwargs: seq<Kwarg>, now: real)
      modifies this
      ensures files == old(files)[sha1(Preimage(url, kwargs)) := CacheEntry(now, text)]
    {
      var key := CacheKey(url, kwargs, sha1);
      files := files[key := CacheEntry(now, text)];
    }
  }
}
