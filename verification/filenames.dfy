/** The exporter's file-name scheme (`_write_html` callers in
    generate_static_site.py): every output page is one unit, every unit one
    file name directly under the output root. Tag names are inserted
    verbatim, so names stay distinct only for tag names that are safe. */
module OutputNames {
  import opened Common

  /** One output page: kind plus its filter and page number. */
  datatype Unit =
    | IndexUnit
    | MainList(page: nat)
    | TagList(tagName: string, page: nat)
    | DetailUnit(articleId: nat)
    | AboutUnit
    | BoardUnit
    | SitemapUnit

  /** A tag name the scheme can carry without ambiguity: it does not contain
      `_page_` (which would mimic a later page of another tag) and no `/`
      (which would leave the output root). The exporter does not check this. */
  predicate SafeTagName(name: string) {
    !Contains(name, "_page_") && '/' !in name
  }

  predicate ValidUnit(u: Unit) {
    match u
    case MainList(k) => 1 <= k
    case TagList(name, k) => 1 <= k && SafeTagName(name)
    case _ => true
  }

  function MainListName(k: nat): string {
    if k == 1 then "list.html" else "list_page_" + NatToString(k) + ".html"
  }

  /** The part of a tag page's name after `list_tag_`: the tag name, and
      from page 2 on `_page_{k}`. */
  function TagBody(name: string, k: nat): string {
    if k > 1 then name + "_page_" + NatToString(k) else name
  }

  function TagListName(name: string, k: nat): string {
    "list_tag_" + TagBody(name, k) + ".html"
  }

  function DetailName(id: nat): string {
    "article_" + NatToString(id) + ".html"
  }

  const SitemapName: string := "sitemap.xml"
  const MarkerName: string := ".nojekyll"

  /** The file each unit is written to. */
  function UnitName(u: Unit): string {
    match u
    case IndexUnit => "index.html"
    case MainList(k) => MainListName(k)
    case TagList(name, k) => TagListName(name, k)
    case DetailUnit(id) => DetailName(id)
    case AboutUnit => "about.html"
    case BoardUnit => "board.html"
    case SitemapUnit => SitemapName
  }

  /*** Reading a file name back ***/

  /** The number of trailing decimal digits of `s`. */
  function DigitSuffixLength(s: string): (k: nat)
    ensures k <= |s| && AllDigits(s[|s| - k..])
    ensures k < |s| ==> !IsDigit(s[|s| - k - 1])
  {
    if |s| == 0 || !IsDigit(s[|s| - 1]) then 0
    else
      var t := s[..|s| - 1];
      var k := 1 + DigitSuffixLength(t);
      var u := s[|s| - k..];
      var v := t[|t| - (k - 1)..];
      assert u == v + [s[|s| - 1]];
      assert k < |s| ==> s[|s| - k - 1] == t[|t| - (k - 1) - 1];
      k
  }

  lemma {:induction false} DigitSuffixOfDigits(prefix: string, digits: string)
    requires AllDigits(digits)
    requires |prefix| > 0 && !IsDigit(prefix[|prefix| - 1])
    ensures DigitSuffixLength(prefix + digits) == |digits|
  {
    if |digits| > 0 {
      assert (prefix + digits)[..|prefix + digits| - 1] == prefix + digits[..|digits| - 1];
      DigitSuffixOfDigits(prefix, digits[..|digits| - 1]);
    } else {
      assert prefix + digits == prefix;
    }
  }

  /** A page number as `str()` writes it: digits without a leading zero. */
  function ParseNumber(d: string): Option<nat> {
    if 1 <= |d| && AllDigits(d) && (|d| == 1 || d[0] != '0') then Some(DigitsValue(d)) else None
  }

  lemma ParseNumberOfNatToString(n: nat)
    ensures ParseNumber(NatToString(n)) == Some(n)
  {
    NatToStringValue(n);
  }

  /** The tag part of `list_tag_{name}.html` / `list_tag_{name}_page_{k}.html`. */
  function ParseTagStem(body: string): Unit {
    var j := |body| - DigitSuffixLength(body);
    if 6 <= j < |body| && body[j - 6..j] == "_page_" && ParseNumber(body[j..]).Some?
       && ParseNumber(body[j..]).value >= 2
    then TagList(body[..j - 6], ParseNumber(body[j..]).value)
    else TagList(body, 1)
  }

  /** Which unit a file name belongs to, if any. */
  function ParseUnitName(s: string): Option<Unit> {
    if s == "index.html" then Some(IndexUnit)
    else if s == "about.html" then Some(AboutUnit)
    else if s == "board.html" then Some(BoardUnit)
    else if s == SitemapName then Some(SitemapUnit)
    else if s == "list.html" then Some(MainList(1))
    else if !EndsWith(s, ".html") then None
    else ParseHtmlStem(s[..|s| - 5])
  }

  /** The numbered pages: `list_page_{k}`, `list_tag_{...}`, `article_{id}`. */
  function ParseHtmlStem(stem: string): Option<Unit> {
    if StartsWith(stem, "list_page_") then
      match ParseNumber(stem[10..])
      case Some(k) => if k >= 2 then Some(MainList(k)) else None
      case None => None
    else if StartsWith(stem, "list_tag_") then Some(ParseTagStem(stem[9..]))
    else if StartsWith(stem, "article_") then
      match ParseNumber(stem[8..])
      case Some(id) => Some(DetailUnit(id))
      case None => None
    else None
  }

  /** Names longer than every fixed name are read by their stem alone. */
  lemma LongHtmlName(s: string)
    requires 12 <= |s| && EndsWith(s, ".html")
    ensures ParseUnitName(s) == ParseHtmlStem(s[..|s| - 5])
  {
  }

  lemma TagStemRoundTrip(name: string, k: nat)
    requires 1 <= k && SafeTagName(name)
    ensures ParseTagStem(TagBody(name, k)) == TagList(name, k)
  {
    if k > 1 {
      PagedTagStem(name, k);
    } else {
      var j := |name| - DigitSuffixLength(name);
      if 6 <= j < |name| && name[j - 6..j] == "_page_" {
        assert OccursAt(name, "_page_", j - 6);
        assert false;
      }
    }
  }

  lemma PagedTagStem(name: string, k: nat)
    requires 2 <= k
    ensures ParseTagStem(name + "_page_" + NatToString(k)) == TagList(name, k)
  {
    var d := NatToString(k);
    var body := name + "_page_" + d;
    var j := |body| - |d|;
    assert DigitSuffixLength(body) == |d| by {
      assert body == (name + "_page_") + d;
      DigitSuffixOfDigits(name + "_page_", d);
    }
    assert body[j - 6..j] == "_page_" && body[j..] == d && body[..j - 6] == name;
    ParseNumberOfNatToString(k);
  }

  lemma MainListRoundTrip(k: nat)
    requires 2 <= k
    ensures ParseUnitName(MainListName(k)) == Some(MainList(k))
  {
    var stem := "list_page_" + NatToString(k);
    var s := stem + ".html";
    assert MainListName(k) == s;
    ConcatAffixes(stem, ".html");
    LongHtmlName(s);
    ConcatAffixes("list_page_", NatToString(k));
    ParseNumberOfNatToString(k);
  }

  lemma TagListRoundTrip(name: string, k: nat)
    requires 1 <= k && SafeTagName(name)
    ensures ParseUnitName(TagListName(name, k)) == Some(TagList(name, k))
  {
    var body := TagBody(name, k);
    var stem := "list_tag_" + body;
    assert TagListName(name, k) == stem + ".html";
    assert ParseUnitName(stem + ".html") == ParseHtmlStem(stem) by {
      ConcatAffixes(stem, ".html");
      LongHtmlName(stem + ".html");
    }
    assert ParseHtmlStem(stem) == Some(ParseTagStem(body)) by {
      ConcatAffixes("list_tag_", body);
      NotStartsWith(stem, "list_page_", 5);
    }
    TagStemRoundTrip(name, k);
  }

  lemma DetailRoundTrip(id: nat)
    ensures ParseUnitName(DetailName(id)) == Some(DetailUnit(id))
  {
    var stem := "article_" + NatToString(id);
    var s := stem + ".html";
    assert DetailName(id) == s;
    ConcatAffixes(stem, ".html");
    LongHtmlName(s);
    ConcatAffixes("article_", NatToString(id));
    NotStartsWith(stem, "list_page_", 0);
    NotStartsWith(stem, "list_tag_", 0);
    ParseNumberOfNatToString(id);
  }

  /** Every valid unit's file name reads back as that unit. */
  lemma UnitNameRoundTrip(u: Unit)
    requires ValidUnit(u)
    ensures ParseUnitName(UnitName(u)) == Some(u)
  {
    match u
    case MainList(k) =>
      if k > 1 {
        MainListRoundTrip(k);
      }
    case TagList(name, k) => TagListRoundTrip(name, k);
    case DetailUnit(id) => DetailRoundTrip(id);
    case _ =>
  }

  /** Distinct valid units are written to distinct files. */
  lemma UnitNameInjective(u: Unit, v: Unit)
    requires ValidUnit(u) && ValidUnit(v) && UnitName(u) == UnitName(v)
    ensures u == v
  {
    UnitNameRoundTrip(u);
    UnitNameRoundTrip(v);
  }

  /** Every valid unit's file lies directly under the output root. */
  lemma UnitNameAtRoot(u: Unit)
    requires ValidUnit(u)
    ensures '/' !in UnitName(u)
    ensures UnitName(u) != MarkerName
  {
    match u
    case MainList(k) =>
      if k > 1 {
        var d := NatToString(k);
        assert forall i :: 0 <= i < |d| ==> IsDigit(d[i]);
      }
    case TagList(name, k) =>
      if k > 1 {
        var d := NatToString(k);
        assert forall i :: 0 <= i < |d| ==> IsDigit(d[i]);
      }
    case DetailUnit(id) =>
      var d := NatToString(id);
      assert forall i :: 0 <= i < |d| ==> IsDigit(d[i]);
    case _ =>
  }
}
