/** Where the application looks for content: the URL builders and the order
    in which `locateAndDisplayRecentPosts` probes the monthly index files. */
module Probing {
  import opened JsValues

  /** `/cloud/${language}/${storyPath}`. */
  function StoryUrl(lang: string, path: JsValue): string
  {
    "/cloud/" + lang + "/" + ToJsString(path)
  }

  /** `/cloud/${language}/${topic}/${topic}.json`. */
  function TopicMetaUrl(lang: string, topic: string): string
  {
    "/cloud/" + lang + "/" + topic + "/" + topic + ".json"
  }

  /** `/cloud/${language}/${topic}/${year}/${month}/index.json`. */
  function IndexUrl(lang: string, topic: string, year: nat, month: string): string
  {
    "/cloud/" + lang + "/" + topic + "/" + NatToString(year) + "/" + month + "/index.json"
  }

  /** A path segment: no `/` inside. Language codes, topic names and decimal
      years are segments. */
  predicate Segment(s: string) {
    forall i :: 0 <= i < |s| ==> s[i] != '/'
  }

  lemma DigitsAreSegment(n: nat)
    ensures Segment(NatToString(n))
  {
  }

  /** A segment followed by `/` is read back unambiguously. */
  lemma {:induction false} SplitAtSlash(a1: string, r1: string, a2: string, r2: string)
    requires Segment(a1) && Segment(a2)
    requires a1 + "/" + r1 == a2 + "/" + r2
    ensures a1 == a2 && r1 == r2
  {
    var u := a1 + "/" + r1;
    if |a1| < |a2| {
      SlashAfter(a1, r1);
    } else if |a2| < |a1| {
      SlashAfter(a2, r2);
    } else {
      assert a1 == u[..|a1|];
      assert a2 == (a2 + "/" + r2)[..|a2|];
      assert r1 == u[|a1| + 1..];
      assert r2 == (a2 + "/" + r2)[|a2| + 1..];
    }
  }

  lemma SlashAfter(a: string, r: string)
    ensures (a + "/" + r)[|a|] == '/'
  {
  }

  /** Every URL the application fetches starts with `/cloud/`, and what follows is `lang/rest`. */
  lemma StripCloud(lang1: string, rest1: string, lang2: string, rest2: string)
    requires Segment(lang1) && Segment(lang2)
    requires "/cloud/" + lang1 + "/" + rest1 == "/cloud/" + lang2 + "/" + rest2
    ensures lang1 == lang2 && rest1 == rest2
  {
    var u1 := lang1 + "/" + rest1;
    var u2 := lang2 + "/" + rest2;
    assert "/cloud/" + lang1 + "/" + rest1 == "/cloud/" + u1;
    assert "/cloud/" + lang2 + "/" + rest2 == "/cloud/" + u2;
    assert u1 == ("/cloud/" + u1)[7..];
    assert u2 == ("/cloud/" + u2)[7..];
    SplitAtSlash(lang1, rest1, lang2, rest2);
  }

  /** Different languages or different story paths fetch different story files. */
  lemma StoryUrlInjective(lang1: string, path1: JsValue, lang2: string, path2: JsValue)
    requires Segment(lang1) && Segment(lang2)
    requires StoryUrl(lang1, path1) == StoryUrl(lang2, path2)
    ensures lang1 == lang2 && ToJsString(path1) == ToJsString(path2)
  {
    StripCloud(lang1, ToJsString(path1), lang2, ToJsString(path2));
  }

  /** Different languages or different topics fetch different metadata files;
      a topic name need not be a segment for this. */
  lemma TopicMetaUrlInjective(lang1: string, topic1: string, lang2: string, topic2: string)
    requires Segment(lang1) && Segment(lang2)
    requires TopicMetaUrl(lang1, topic1) == TopicMetaUrl(lang2, topic2)
    ensures lang1 == lang2 && topic1 == topic2
  {
    var rest1 := topic1 + "/" + topic1 + ".json";
    var rest2 := topic2 + "/" + topic2 + ".json";
    assert TopicMetaUrl(lang1, topic1) == "/cloud/" + lang1 + "/" + rest1;
    assert TopicMetaUrl(lang2, topic2) == "/cloud/" + lang2 + "/" + rest2;
    StripCloud(lang1, rest1, lang2, rest2);
    assert |topic1| == |topic2|;
    assert topic1 == rest1[..|topic1|];
    assert topic2 == rest2[..|topic2|];
  }

  /** Distinct probes fetch distinct index files: the URL determines the
      language, the topic, the year and the month. */
  lemma IndexUrlInjective(lang1: string, topic1: string, year1: nat, month1: string,
                          lang2: string, topic2: string, year2: nat, month2: string)
    requires Segment(lang1) && Segment(lang2) && Segment(topic1) && Segment(topic2)
    requires IndexUrl(lang1, topic1, year1, month1) == IndexUrl(lang2, topic2, year2, month2)
    ensures lang1 == lang2 && topic1 == topic2 && year1 == year2 && month1 == month2
  {
    IndexUrlShape(lang1, topic1, year1, month1);
    IndexUrlShape(lang2, topic2, year2, month2);
    StripCloud(lang1, IndexRest(topic1, year1, month1), lang2, IndexRest(topic2, year2, month2));
    IndexRestInjective(topic1, year1, month1, topic2, year2, month2);
  }

  /** What follows the language in an index URL. */
  function IndexRest(topic: string, year: nat, month: string): string {
    topic + "/" + (NatToString(year) + "/" + (month + "/index.json"))
  }

  lemma IndexUrlShape(lang: string, topic: string, year: nat, month: string)
    ensures IndexUrl(lang, topic, year, month) == "/cloud/" + lang + "/" + IndexRest(topic, year, month)
  {
    var y := NatToString(year);
    var p := "/cloud/" + lang + "/";
    assert IndexUrl(lang, topic, year, month) == p + topic + "/" + y + "/" + month + "/index.json";
    assert p + topic + "/" + y + "/" + month + "/index.json" == p + (topic + "/" + y + "/" + month + "/index.json");
    assert topic + "/" + y + "/" + month + "/index.json" == IndexRest(topic, year, month);
  }

  lemma IndexRestInjective(topic1: string, year1: nat, month1: string, topic2: string, year2: nat, month2: string)
    requires Segment(topic1) && Segment(topic2)
    requires IndexRest(topic1, year1, month1) == IndexRest(topic2, year2, month2)
    ensures topic1 == topic2 && year1 == year2 && month1 == month2
  {
    var y1, y2 := NatToString(year1), NatToString(year2);
    var tail1, tail2 := month1 + "/index.json", month2 + "/index.json";
    SplitAtSlash(topic1, y1 + "/" + tail1, topic2, y2 + "/" + tail2);
    DigitsAreSegment(year1);
    DigitsAreSegment(year2);
    SplitAtSlash(y1, tail1, y2, tail2);
    NatToStringInjective(year1, year2);
    assert month1 == tail1[..|month1|];
    assert month2 == tail2[..|month2|];
  }

  /** One key of the topic metadata: a year and its list of months, as stored. */
  datatype YearEntry = YearEntry(year: nat, months: seq<string>)

  /** The topic metadata object, its keys in `Object.keys` order. */
  type TopicMeta = seq<YearEntry>

  /** One index file to try. */
  datatype Probe = Probe(year: nat, month: string)

  predicate SortedDesc(es: seq<YearEntry>) {
    forall i, j :: 0 <= i < j < |es| ==> es[i].year >= es[j].year
  }

  /** Inserts `e` before the first entry whose year is not larger, so entries
      with equal years keep their relative order. */
  function Insert(e: YearEntry, es: seq<YearEntry>): (r: seq<YearEntry>)
    ensures multiset(r) == multiset(es) + multiset{e}
    ensures |r| == |es| + 1
  {
    if es == [] || e.year >= es[0].year then [e] + es
    else
      assert es == [es[0]] + es[1..];
      [es[0]] + Insert(e, es[1..])
  }

  /** Insertion keeps a newest-first run newest first. */
  lemma {:induction false} InsertKeepsSorted(e: YearEntry, es: seq<YearEntry>)
    requires SortedDesc(es)
    ensures SortedDesc(Insert(e, es))
    decreases es
  {
    if es == [] || e.year >= es[0].year {
      ConsSorted(e, es);
    } else {
      SortedTail(es);
      InsertKeepsSorted(e, es[1..]);
      InsertBound(e, es[1..], es[0].year);
      ConsSorted(es[0], Insert(e, es[1..]));
    }
  }

  lemma SortedTail(es: seq<YearEntry>)
    requires SortedDesc(es) && es != []
    ensures SortedDesc(es[1..])
    ensures forall y :: y in es[1..] ==> y.year <= es[0].year
  {
    forall i, j | 0 <= i < j < |es[1..]| ensures es[1..][i].year >= es[1..][j].year {
      assert es[1..][i] == es[i + 1] && es[1..][j] == es[j + 1];
    }
    forall y | y in es[1..] ensures y.year <= es[0].year {
      var k :| 0 <= k < |es[1..]| && es[1..][k] == y;
      assert es[k + 1] == y;
    }
  }

  lemma InsertBound(e: YearEntry, es: seq<YearEntry>, b: nat)
    requires e.year <= b && forall y :: y in es ==> y.year <= b
    ensures forall y :: y in Insert(e, es) ==> y.year <= b
  {
    forall y | y in Insert(e, es) ensures y.year <= b {
      assert y in multiset(Insert(e, es));
      assert y == e || y in multiset(es);
    }
  }

  lemma ConsSorted(x: YearEntry, rest: seq<YearEntry>)
    requires SortedDesc(rest) && forall y :: y in rest ==> y.year <= x.year
    ensures SortedDesc([x] + rest)
  {
    forall i, j | 0 <= i < j < |[x] + rest| ensures ([x] + rest)[i].year >= ([x] + rest)[j].year {
      if i == 0 {
        assert ([x] + rest)[j] == rest[j - 1] && rest[j - 1] in rest;
      } else {
        assert ([x] + rest)[i] == rest[i - 1] && ([x] + rest)[j] == rest[j - 1];
      }
    }
  }

  /** `Object.keys(topicMeta).sort((a, b) => b - a)`: the years, newest first. */
  function SortDesc(es: seq<YearEntry>): (r: seq<YearEntry>)
    ensures multiset(r) == multiset(es)
    ensures SortedDesc(r)
  {
    if es == [] then []
    else
      assert es == [es[0]] + es[1..];
      InsertKeepsSorted(es[0], SortDesc(es[1..]));
      Insert(es[0], SortDesc(es[1..]))
  }

  /** The probes of one year: its months in reverse of their stored order. */
  function YearProbes(e: YearEntry): (ps: seq<Probe>)
    ensures |ps| == |e.months|
    ensures forall k :: 0 <= k < |ps| ==> ps[k] == Probe(e.year, e.months[|e.months| - 1 - k])
  {
    var months := Reverse(e.months);
    seq(|months|, k requires 0 <= k < |months| => Probe(e.year, months[k]))
  }

  /** The probes of a run of years, year by year. */
  function Expand(es: seq<YearEntry>): seq<Probe>
  {
    if es == [] then [] else YearProbes(es[0]) + Expand(es[1..])
  }

  /** The complete probe order for a topic. */
  function ProbeOrder(meta: TopicMeta): seq<Probe> {
    Expand(SortDesc(meta))
  }

  /** `p` is the probe of some month stored under its year in `es`. */
  predicate Listed(es: seq<YearEntry>, p: Probe) {
    exists i :: 0 <= i < |es| && es[i].year == p.year && p.month in es[i].months
  }

  lemma {:induction false} ExpandListed(es: seq<YearEntry>, p: Probe)
    ensures p in Expand(es) <==> Listed(es, p)
    decreases es
  {
    if es != [] {
      ExpandListed(es[1..], p);
      var head := YearProbes(es[0]);
      assert Expand(es) == head + Expand(es[1..]);
      if p in head {
        var k :| 0 <= k < |head| && head[k] == p;
        assert es[0].months[|es[0].months| - 1 - k] == p.month;
        assert Listed(es, p);
      }
      if Listed(es, p) {
        var i :| 0 <= i < |es| && es[i].year == p.year && p.month in es[i].months;
        if i == 0 {
          var k :| 0 <= k < |es[0].months| && es[0].months[k] == p.month;
          assert head[|es[0].months| - 1 - k] == p;
        } else {
          assert es[1..][i - 1] == es[i];
        }
      }
      if Listed(es[1..], p) {
        var i :| 0 <= i < |es[1..]| && es[1..][i].year == p.year && p.month in es[1..][i].months;
        assert es[i + 1] == es[1..][i];
      }
    }
  }

  /** Exactly the listed (year, month) pairs are probed: nothing is skipped and
      nothing else is fetched. */
  lemma ProbeOrderComplete(meta: TopicMeta, p: Probe)
    ensures p in ProbeOrder(meta) <==> Listed(meta, p)
  {
    var sorted := SortDesc(meta);
    ExpandListed(sorted, p);
    if Listed(sorted, p) {
      var i :| 0 <= i < |sorted| && sorted[i].year == p.year && p.month in sorted[i].months;
      assert sorted[i] in multiset(meta);
      var j :| 0 <= j < |meta| && meta[j] == sorted[i];
    }
    if Listed(meta, p) {
      var i :| 0 <= i < |meta| && meta[i].year == p.year && p.month in meta[i].months;
      assert meta[i] in multiset(sorted);
      var j :| 0 <= j < |sorted| && sorted[j] == meta[i];
    }
  }

  /** Every probe of a run of years has the year of one of its entries. */
  lemma {:induction false} ExpandYears(es: seq<YearEntry>, k: int)
    requires 0 <= k < |Expand(es)|
    ensures exists i :: 0 <= i < |es| && es[i].year == Expand(es)[k].year
    decreases es
  {
    var head := YearProbes(es[0]);
    if k < |head| {
      assert Expand(es)[k] == head[k];
    } else {
      assert Expand(es)[k] == Expand(es[1..])[k - |head|];
      ExpandYears(es[1..], k - |head|);
      var i :| 0 <= i < |es[1..]| && es[1..][i].year == Expand(es[1..])[k - |head|].year;
      assert es[i + 1] == es[1..][i];
    }
  }

  /** Years are probed newest first. */
  lemma {:induction false} ExpandDescending(es: seq<YearEntry>, a: int, b: int)
    requires SortedDesc(es) && 0 <= a < b < |Expand(es)|
    ensures Expand(es)[a].year >= Expand(es)[b].year
    decreases es
  {
    var head := YearProbes(es[0]);
    var tail := Expand(es[1..]);
    assert Expand(es) == head + tail;
    if b < |head| {
    } else if a < |head| {
      ExpandYears(es[1..], b - |head|);
      var i :| 0 <= i < |es[1..]| && es[1..][i].year == tail[b - |head|].year;
      assert es[1..][i] == es[i + 1];
    } else {
      assert SortedDesc(es[1..]) by {
        forall i, j | 0 <= i < j < |es[1..]| ensures es[1..][i].year >= es[1..][j].year {
          assert es[1..][i] == es[i + 1] && es[1..][j] == es[j + 1];
        }
      }
      ExpandDescending(es[1..], a - |head|, b - |head|);
    }
  }

  lemma ProbeOrderDescending(meta: TopicMeta, a: int, b: int)
    requires 0 <= a < b < |ProbeOrder(meta)|
    ensures ProbeOrder(meta)[a].year >= ProbeOrder(meta)[b].year
  {
    ExpandDescending(SortDesc(meta), a, b);
  }

  /** Position of the first probe of entry `k` in `Expand(es)`. */
  function Offset(es: seq<YearEntry>, k: nat): nat
    requires k <= |es|
  {
    if k == 0 then 0 else |es[0].months| + Offset(es[1..], k - 1)
  }

  /** Each year's months are probed consecutively, latest stored month first. */
  lemma {:induction false} ExpandBlocks(es: seq<YearEntry>, k: nat)
    requires k < |es|
    ensures Offset(es, k) + |es[k].months| <= |Expand(es)|
    ensures Expand(es)[Offset(es, k)..Offset(es, k) + |es[k].months|] == YearProbes(es[k])
    decreases k
  {
    var head := YearProbes(es[0]);
    var tail := Expand(es[1..]);
    assert Expand(es) == head + tail;
    if k > 0 {
      ExpandBlocks(es[1..], k - 1);
      assert es[1..][k - 1] == es[k];
      var o := Offset(es[1..], k - 1);
      assert (head + tail)[|head| + o..|head| + o + |es[k].months|] == tail[o..o + |es[k].months|];
    }
  }
}
