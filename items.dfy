/**
 * extract_item_attr and fetch_item: the stat bonuses read from an item's
 * NQ and HQ effect texts with `finditer`, and the pair of records an item
 * with any bonus becomes.
 */
module Items {
  import opened Wrappers
  import opened Text
  import opened Locales
  import opened Bonuses

  /** The three stat names the item patterns start with. */
  const CraftsmanshipLabel: string := "Craftsmanship"
  const ControlLabel: string := "Control"
  const CpLabel: string := "CP"

  const PercentText: string := "% (Max "

  /** A match of an item pattern: the bonus it reads and how many characters it spans. */
  datatype BonusMatch = BonusMatch(bonus: Bonus, len: nat)

  /**
   * `ITEM_<stat>_RE.match(s)` for `<stat> \+([0-9]+)% \(Max ([0-9]+)\)`,
   * anchored at the start of `s`; the groups are read with `int()`.
   */
  function MatchBonusAt(stat: string, s: string): (r: Option<BonusMatch>)
    ensures r.Some? ==> 0 < r.value.len <= |s|
  {
    var head := stat + " +";
    if !StartsWith(s, head) then None
    else
      match MatchBonusBody(s[|head|..])
      case None => None
      case Some(m) => Some(BonusMatch(m.bonus, |head| + m.len))
  }

  /** The part of an item pattern after `<stat> +`: `([0-9]+)% \(Max ([0-9]+)\)`. */
  function MatchBonusBody(r1: string): (r: Option<BonusMatch>)
    ensures r.Some? ==> 0 < r.value.len <= |r1|
  {
    var n1 := DigitRun(r1);
    if n1 == 0 || !StartsWith(r1[n1..], PercentText) then None
    else
      var r2 := r1[n1 + |PercentText|..];
      var n2 := DigitRun(r2);
      if n2 == 0 || !StartsWith(r2[n2..], ")") then None
      else Some(BonusMatch(Bonus(DecimalValue(r1[..n1]), DecimalValue(r2[..n2])), n1 + |PercentText| + n2 + 1))
  }

  /**
   * `finditer`: the matches found scanning left to right, each search
   * resuming where the previous match ended. Every match spans at least
   * one character, so there are no more matches than characters.
   */
  function FindAll(stat: string, s: string): (r: seq<Bonus>)
    ensures |r| <= |s|
    decreases |s|
  {
    if s == [] then []
    else
      match MatchBonusAt(stat, s)
      case Some(m) => [m.bonus] + FindAll(stat, s[m.len..])
      case None => FindAll(stat, s[1..])
  }

  /** Nothing is found exactly when the pattern matches at no position of the text. */
  lemma {:induction false} FindAllEmpty(stat: string, s: string)
    ensures FindAll(stat, s) == [] <==> forall i :: 0 <= i < |s| ==> MatchBonusAt(stat, s[i..]).None?
    decreases |s|
  {
    if s != [] {
      FindAllEmpty(stat, s[1..]);
      if MatchBonusAt(stat, s).None? {
        forall i | 1 <= i < |s| ensures s[i..] == s[1..][i - 1..] {}
        assert forall i :: 0 <= i < |s| - 1 ==> s[1..][i..] == s[i + 1..];
      } else {
        assert s[0..] == s;
      }
    }
  }

  /** Every bonus found is read by a match of the pattern at some position of the text. */
  lemma {:induction false} FindAllSound(stat: string, s: string)
    ensures forall k :: 0 <= k < |FindAll(stat, s)| ==> MatchedSomewhere(stat, s, FindAll(stat, s)[k])
    decreases |s|
  {
    if s != [] {
      var m := MatchBonusAt(stat, s);
      var d := if m.Some? then m.value.len else 1;
      FindAllSound(stat, s[d..]);
      FoundInSuffix(stat, s, d, FindAll(stat, s[d..]));
    }
  }

  /**
   * The bonuses found from the point the scan resumes at `d` are matched in
   * the whole text, and so is a match at the start.
   */
  lemma {:induction false} FoundInSuffix(stat: string, s: string, d: nat, rt: seq<Bonus>)
    requires s != [] && d == (if MatchBonusAt(stat, s).Some? then MatchBonusAt(stat, s).value.len else 1)
    requires rt == FindAll(stat, s[d..])
    requires forall k :: 0 <= k < |rt| ==> MatchedSomewhere(stat, s[d..], rt[k])
    ensures forall k :: 0 <= k < |FindAll(stat, s)| ==> MatchedSomewhere(stat, s, FindAll(stat, s)[k])
  {
    var r := FindAll(stat, s);
    var head := if MatchBonusAt(stat, s).Some? then [MatchBonusAt(stat, s).value.bonus] else [];
    assert r == head + rt;
    forall k | 0 <= k < |r|
      ensures MatchedSomewhere(stat, s, r[k])
    {
      if k < |head| {
        assert s[0..] == s;
        assert MatchedAt(stat, s, 0, r[k]);
      } else {
        assert r[k] == rt[k - |head|];
        MatchedLater(stat, s, d, rt[k - |head|]);
      }
    }
  }

  /** A match in a suffix of the text is a match in the text. */
  lemma {:induction false} MatchedLater(stat: string, s: string, d: nat, b: Bonus)
    requires d <= |s| && MatchedSomewhere(stat, s[d..], b)
    ensures MatchedSomewhere(stat, s, b)
  {
    var t := s[d..];
    var i :| 0 <= i < |t| && MatchedAt(stat, t, i, b);
    assert t[i..] == s[d + i..];
    assert MatchedAt(stat, s, d + i, b);
  }

  /** The pattern matches the text at position `i` and reads bonus `b`. */
  predicate MatchedAt(stat: string, s: string, i: nat, b: Bonus)
    requires i < |s|
  {
    MatchBonusAt(stat, s[i..]).Some? && MatchBonusAt(stat, s[i..]).value.bonus == b
  }

  /** The pattern matches the text at some position and reads bonus `b` there. */
  predicate MatchedSomewhere(stat: string, s: string, b: Bonus) {
    exists i :: 0 <= i < |s| && MatchedAt(stat, s, i, b)
  }

  /** The text the effect list shows for a bonus of `percent`% up to `value`. */
  function BonusText(stat: string, b: Bonus): string
    requires b.percent >= 0 && b.value >= 0
  {
    stat + " +" + Render(b.percent) + PercentText + Render(b.value) + ")"
  }

  /** A bonus written as the page shows it is read back, whatever follows it. */
  lemma MatchBonusRoundTrip(stat: string, b: Bonus, tail: string)
    requires b.percent >= 0 && b.value >= 0
    ensures MatchBonusAt(stat, BonusText(stat, b) + tail) == Some(BonusMatch(b, |BonusText(stat, b)|))
  {
    var head := stat + " +";
    var p, v := Render(b.percent), Render(b.value);
    var body := p + (PercentText + (v + (")" + tail)));
    var s := BonusText(stat, b) + tail;
    assert s == head + body;
    assert StartsWith(s, head);
    assert s[|head|..] == body;
    BodyRoundTrip(b, tail);
  }

  /** The numbers after `<stat> +` are read back, and the match ends at the closing parenthesis. */
  lemma BodyRoundTrip(b: Bonus, tail: string)
    requires b.percent >= 0 && b.value >= 0
    ensures var p, v := Render(b.percent), Render(b.value);
      MatchBonusBody(p + (PercentText + (v + (")" + tail))))
        == Some(BonusMatch(b, |p| + |PercentText| + |v| + 1))
  {
    var p, v := Render(b.percent), Render(b.value);
    var r1 := p + (PercentText + (v + (")" + tail)));
    DigitRunOf(p, PercentText + (v + (")" + tail)));
    assert r1[..|p|] == p;
    assert r1[|p|..] == PercentText + (v + (")" + tail));
    var r2 := r1[|p| + |PercentText|..];
    assert r2 == v + (")" + tail);
    DigitRunOf(v, ")" + tail);
    assert r2[..|v|] == v;
    assert r2[|v|..] == ")" + tail;
  }

  /** A bonus at the start of the text is found, and the search resumes right after it. */
  lemma FindAllAfterBonus(stat: string, b: Bonus, tail: string)
    requires b.percent >= 0 && b.value >= 0
    ensures FindAll(stat, BonusText(stat, b) + tail) == [b] + FindAll(stat, tail)
  {
    var t := BonusText(stat, b);
    MatchBonusRoundTrip(stat, b, tail);
    assert (t + tail)[|t|..] == tail;
  }

  /** The same pattern twice: both are found, in text order. */
  lemma FindAllOfTwo(stat: string, b1: Bonus, b2: Bonus)
    requires b1.percent >= 0 && b1.value >= 0 && b2.percent >= 0 && b2.value >= 0
    ensures FindAll(stat, BonusText(stat, b1) + BonusText(stat, b2)) == [b1, b2]
  {
    var t2 := BonusText(stat, b2);
    FindAllAfterBonus(stat, b1, t2);
    FindAllAfterBonus(stat, b2, "");
    assert t2 + "" == t2;
  }

  /** The last bonus found, or what the record already had when none was. */
  function LastOr(found: seq<Bonus>, prior: Option<Bonus>): Option<Bonus> {
    if found == [] then prior else Some(found[|found| - 1])
  }

  /** The bonuses a record holds after extract_item_attr has read `text`. */
  function ExtractedBonuses(text: string, b: Bonuses): Bonuses {
    Bonuses(LastOr(FindAll(CraftsmanshipLabel, text), b.craftsmanship),
            LastOr(FindAll(ControlLabel, text), b.control),
            LastOr(FindAll(CpLabel, text), b.cp))
  }

  /** At least one of the three patterns occurs in `text`. */
  predicate AnyBonus(text: string) {
    FindAll(CraftsmanshipLabel, text) != [] || FindAll(ControlLabel, text) != [] || FindAll(CpLabel, text) != []
  }

  /** An item record: `id`, `name`, `hq` and the bonus keys set on it. */
  datatype Item = Item(id: string, name: map<string, string>, hq: bool, bonuses: Bonuses)

  /**
   * extract_item_attr: one `for m in finditer(...)` loop per pattern, each
   * match overwriting the pair the previous one set; reports whether any
   * pattern matched.
   */
  method ExtractItemAttr(text: string, item: Item) returns (found: bool, item': Item)
    ensures found == AnyBonus(text)
    ensures item' == item.(bonuses := ExtractedBonuses(text, item.bonuses))
  {
    found := false;
    item' := item;
    var crafts := FindAll(CraftsmanshipLabel, text);
    for i := 0 to |crafts|
      invariant found == (i > 0)
      invariant item' == item.(bonuses := item.bonuses.(craftsmanship := LastOr(crafts[..i], item.bonuses.craftsmanship)))
    {
      found := true;
      item' := item'.(bonuses := item'.bonuses.(craftsmanship := Some(crafts[i])));
    }
    assert crafts[..|crafts|] == crafts;
    var control := FindAll(ControlLabel, text);
    ghost var afterCrafts := item';
    ghost var foundCrafts := found;
    for i := 0 to |control|
      invariant found == (foundCrafts || i > 0)
      invariant item' == afterCrafts.(bonuses := afterCrafts.bonuses.(control := LastOr(control[..i], item.bonuses.control)))
    {
      found := true;
      item' := item'.(bonuses := item'.bonuses.(control := Some(control[i])));
    }
    assert control[..|control|] == control;
    var cp := FindAll(CpLabel, text);
    ghost var afterControl := item';
    ghost var foundControl := found;
    for i := 0 to |cp|
      invariant found == (foundControl || i > 0)
      invariant item' == afterControl.(bonuses := afterControl.bonuses.(cp := LastOr(cp[..i], item.bonuses.cp)))
    {
      found := true;
      item' := item'.(bonuses := item'.bonuses.(cp := Some(cp[i])));
    }
    assert cp[..|cp|] == cp;
  }

  /** The later of two bonuses for the same stat is the one kept; the others stay unset. */
  lemma LaterBonusWins(b1: Bonus, b2: Bonus)
    requires b1.percent >= 0 && b1.value >= 0 && b2.percent >= 0 && b2.value >= 0
    ensures var text := BonusText(ControlLabel, b1) + BonusText(ControlLabel, b2);
      && ExtractedBonuses(text, NoBonuses).control == Some(b2)
      && AnyBonus(text)
  {
    FindAllOfTwo(ControlLabel, b1, b2);
  }

  /** What fetch_item reads from one language's page. */
  datatype ItemPage = ItemPage(embedCode: string, nqText: string, hqText: string, heading: string)

  /**
   * fetch_item's result: None where extract_db_id raises; no record for an
   * item whose stripped NQ and HQ texts show no bonus; otherwise the NQ
   * record and the HQ record.
   */
  function ItemsOf(pages: map<string, ItemPage>): Option<seq<Item>>
    requires forall l :: l in Langs ==> l in pages
  {
    var en := pages["en"];
    match MatchDbId(en.embedCode)
    case None => None
    case Some(id) =>
      var nqText, hqText := Strip(en.nqText), Strip(en.hqText);
      if !AnyBonus(nqText) && !AnyBonus(hqText) then Some([])
      else
        var names := NamesOf(Headings(pages, (p: ItemPage) => p.heading), Langs);
        Some([Item(id, names, false, ExtractedBonuses(nqText, NoBonuses)),
              Item(id, names, true, ExtractedBonuses(hqText, NoBonuses))])
  }

  /** fetch_item on the pages of one item in every language. */
  method FetchItem(pages: map<string, ItemPage>) returns (r: Option<seq<Item>>)
    requires forall l :: l in Langs ==> l in pages
    ensures r == ItemsOf(pages)
  {
    var tree := pages["en"];
    var itemId := MatchDbId(tree.embedCode);
    if itemId.None? {
      return None;
    }
    var itemNq := Item(itemId.value, map[], false, NoBonuses);
    var itemHq := Item(itemId.value, map[], true, NoBonuses);
    var infoTextNq := Strip(tree.nqText);
    var infoTextHq := Strip(tree.hqText);
    var hasNqAttr, hasHqAttr;
    hasNqAttr, itemNq := ExtractItemAttr(infoTextNq, itemNq);
    hasHqAttr, itemHq := ExtractItemAttr(infoTextHq, itemHq);
    if !hasNqAttr && !hasHqAttr {
      return Some([]);
    }
    var names := CollectNames(Headings(pages, (p: ItemPage) => p.heading));
    r := Some([itemNq.(name := names), itemHq.(name := names)]);
  }

  /**
   * An item is kept exactly when one of its texts shows a bonus somewhere,
   * and is then an NQ record followed by an HQ record that share the id
   * and the name, given in every language.
   */
  lemma ItemRecords(pages: map<string, ItemPage>)
    requires forall l :: l in Langs ==> l in pages
    requires ItemsOf(pages).Some?
    ensures var items := ItemsOf(pages).value; var en := pages["en"];
      && (items == [] <==>
            forall stat, i :: stat in {CraftsmanshipLabel, ControlLabel, CpLabel} ==>
              (0 <= i < |Strip(en.nqText)| ==> MatchBonusAt(stat, Strip(en.nqText)[i..]).None?)
              && (0 <= i < |Strip(en.hqText)| ==> MatchBonusAt(stat, Strip(en.hqText)[i..]).None?))
      && (items != [] ==>
            && |items| == 2
            && Some(items[0].id) == MatchDbId(en.embedCode) && items[1].id == items[0].id
            && items[0].name == items[1].name && items[0].name.Keys == LangHosts.Keys
            && !items[0].hq && items[1].hq)
  {
    var en := pages["en"];
    var nq, hq := Strip(en.nqText), Strip(en.hqText);
    FindAllEmpty(CraftsmanshipLabel, nq);
    FindAllEmpty(ControlLabel, nq);
    FindAllEmpty(CpLabel, nq);
    FindAllEmpty(CraftsmanshipLabel, hq);
    FindAllEmpty(ControlLabel, hq);
    FindAllEmpty(CpLabel, hq);
    NamesInEveryLanguage(Headings(pages, (p: ItemPage) => p.heading));
  }
}
