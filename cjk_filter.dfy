/**
 * The Wallabag news recipe of src/Calibre_Wallabag_NewsSource.py: the
 * code-point ranges that count as Chinese, Japanese or Korean, the
 * classification of one character, and the pass over the fetched feeds
 * that drops every article whose title has no such character.
 *
 * Characters are Unicode scalar values and `ord` is `c as int`.
 */
module CjkFilter {

  /** One `{"from": ..., "to": ...}` entry: an inclusive range of code points. */
  datatype CodeRange = CodeRange(first: int, last: int)

  predicate InRange(r: CodeRange, code: int) {
    r.first <= code <= r.last
  }

  const HiraganaRange: CodeRange := CodeRange(0x3040, 0x309F)
  const KatakanaRange: CodeRange := CodeRange(0x30A0, 0x30FF)

  /** The ideograph ranges, kana excluded, in the order of the source's table. */
  const CjkNonKanaRanges: seq<CodeRange> := [
    CodeRange(0x3300, 0x33FF),     // compatibility ideographs
    CodeRange(0xFE30, 0xFE4F),     // compatibility ideographs
    CodeRange(0xF900, 0xFAFF),     // compatibility ideographs
    CodeRange(0x2F800, 0x2FA1F),   // compatibility ideographs supplement
    CodeRange(0x2E80, 0x2EFF),     // CJK radicals supplement
    CodeRange(0x4E00, 0x9FFF),     // unified ideographs
    CodeRange(0x3400, 0x4DBF),     // extension A
    CodeRange(0x20000, 0x2A6DF),   // extension B
    CodeRange(0x2A700, 0x2B73F),   // extension C
    CodeRange(0x2B740, 0x2B81F),   // extension D
    CodeRange(0x2B820, 0x2CEAF)    // extension E
  ]

  /** The table the classifier reads: the non-kana ranges, then hiragana, then katakana. */
  const CjkRanges: seq<CodeRange> := CjkNonKanaRanges + [HiraganaRange, KatakanaRange]

  /**
   * The module-level loop that fills `cjkRanges`: every non-kana range in
   * order, then the two kana ranges.
   */
  method BuildCjkRanges() returns (ranges: seq<CodeRange>)
    ensures |ranges| == |CjkNonKanaRanges| + 2
    ensures forall i :: 0 <= i < |CjkNonKanaRanges| ==> ranges[i] == CjkNonKanaRanges[i]
    ensures ranges[|CjkNonKanaRanges|] == HiraganaRange && ranges[|CjkNonKanaRanges| + 1] == KatakanaRange
    ensures ranges == CjkRanges
  {
    ranges := [];
    for i := 0 to |CjkNonKanaRanges|
      invariant ranges == CjkNonKanaRanges[..i]
    {
      ranges := ranges + [CjkNonKanaRanges[i]];
    }
    ranges := ranges + [HiraganaRange];
    ranges := ranges + [KatakanaRange];
  }

  /** `any([...])` over a table: some range of the table holds the code point. */
  function AnyRangeContains(ranges: seq<CodeRange>, code: int): (b: bool)
    ensures b <==> exists i :: 0 <= i < |ranges| && InRange(ranges[i], code)
  {
    if ranges == [] then false
    else InRange(ranges[0], code) || AnyRangeContains(ranges[1..], code)
  }

  /** is_cjk: the character's code point lies inside one of the ranges of CjkRanges. */
  function IsCjk(c: char): (b: bool)
    ensures b <==> exists i :: 0 <= i < |CjkRanges| && InRange(CjkRanges[i], c as int)
  {
    AnyRangeContains(CjkRanges, c as int)
  }

  /** Every hiragana and every katakana character is CJK. */
  lemma KanaIsCjk(c: char)
    requires 0x3040 <= c as int <= 0x30FF
    ensures IsCjk(c)
  {
    if c as int <= 0x309F {
      assert InRange(CjkRanges[|CjkNonKanaRanges|], c as int);
    } else {
      assert InRange(CjkRanges[|CjkNonKanaRanges| + 1], c as int);
    }
  }

  /** Every character of the unified-ideograph block is CJK. */
  lemma UnifiedIdeographIsCjk(c: char)
    requires 0x4E00 <= c as int <= 0x9FFF
    ensures IsCjk(c)
  {
    assert InRange(CjkRanges[5], c as int);
  }

  /**
   * Nothing below the radicals supplement U+2E80 is CJK: in particular no
   * ASCII character, so no Latin letter.
   */
  lemma BelowRadicalsNotCjk(c: char)
    requires c as int < 0x2E80
    ensures !IsCjk(c)
  {
    forall i | 0 <= i < |CjkRanges|
      ensures !InRange(CjkRanges[i], c as int)
    {
      assert CjkRanges[i].first >= 0x2E80;
    }
  }

  /** The ASCII letters `A` to `z` are never CJK. */
  lemma AsciiLetterNotCjk(c: char)
    requires 'A' <= c <= 'z'
    ensures !IsCjk(c)
  {
    BelowRadicalsNotCjk(c);
  }

  /** A fetched article; only its title matters to the filter. */
  datatype Article = Article(title: string, url: string)

  /** The title holds at least one CJK character. */
  predicate HasCjkTitle(a: Article) {
    exists k :: 0 <= k < |a.title| && IsCjk(a.title[k])
  }

  /**
   * The inner loop over a title: set `foundJapanese` at the first CJK
   * character and stop.
   */
  method FindJapanese(title: string) returns (foundJapanese: bool)
    ensures foundJapanese <==> exists k :: 0 <= k < |title| && IsCjk(title[k])
  {
    foundJapanese := false;
    var k := 0;
    while k < |title|
      invariant 0 <= k <= |title|
      invariant forall j :: 0 <= j < k ==> !IsCjk(title[j])
    {
      if IsCjk(title[k]) {
        foundJapanese := true;
        break;
      }
      k := k + 1;
    }
  }

  /** The articles of a list that have a CJK title, in their original order. */
  function KeepJapanese(articles: seq<Article>): (r: seq<Article>)
    ensures |r| <= |articles|
    ensures forall k :: 0 <= k < |r| ==> HasCjkTitle(r[k])
  {
    if articles == [] then []
    else if HasCjkTitle(articles[0]) then [articles[0]] + KeepJapanese(articles[1..])
    else KeepJapanese(articles[1..])
  }

  /** An article survives exactly when it was there and its title has a CJK character. */
  lemma {:induction false} KeepJapaneseMembers(articles: seq<Article>)
    ensures forall a :: a in KeepJapanese(articles) <==> a in articles && HasCjkTitle(a)
    ensures |KeepJapanese(articles)| <= |articles|
  {
    if articles != [] {
      KeepJapaneseMembers(articles[1..]);
      assert forall a :: a in articles <==> a == articles[0] || a in articles[1..];
    }
  }

  /** Filtering a concatenation filters each part: surviving articles keep their order. */
  lemma {:induction false} KeepJapaneseAppend(xs: seq<Article>, ys: seq<Article>)
    ensures KeepJapanese(xs + ys) == KeepJapanese(xs) + KeepJapanese(ys)
  {
    if xs == [] {
      assert xs + ys == ys;
    } else {
      assert (xs + ys)[1..] == xs[1..] + ys;
      KeepJapaneseAppend(xs[1..], ys);
    }
  }

  /** Filtering twice is filtering once. */
  lemma {:induction false} KeepJapaneseIdempotent(articles: seq<Article>)
    ensures KeepJapanese(KeepJapanese(articles)) == KeepJapanese(articles)
  {
    if articles != [] {
      KeepJapaneseIdempotent(articles[1..]);
    }
  }

  /** Position k holds the first x of xs, and r is xs without that one element. */
  predicate RemovedAt(xs: seq<Article>, x: Article, k: int, r: seq<Article>) {
    0 <= k < |xs| && xs[k] == x && x !in xs[..k] && r == xs[..k] + xs[k + 1..]
  }

  /**
   * `list.remove`: drop the first element equal to x.  The source only
   * removes articles taken from the list, so x is always present.
   */
  function RemoveFirst(xs: seq<Article>, x: Article): (r: seq<Article>)
    requires x in xs
    ensures |r| == |xs| - 1
    ensures exists k :: RemovedAt(xs, x, k, r)
  {
    if xs[0] == x then
      assert RemovedAt(xs, x, 0, xs[1..]);
      xs[1..]
    else
      var rest := RemoveFirst(xs[1..], x);
      RemovedAtCons(xs, x, rest);
      [xs[0]] + rest
  }

  /** Removing from the tail of a list whose head is not x removes from the whole list. */
  lemma RemovedAtCons(xs: seq<Article>, x: Article, rest: seq<Article>)
    requires xs != [] && xs[0] != x && exists k :: RemovedAt(xs[1..], x, k, rest)
    ensures exists k :: RemovedAt(xs, x, k, [xs[0]] + rest)
  {
    var k :| RemovedAt(xs[1..], x, k, rest);
    assert xs[..k + 1] == [xs[0]] + xs[1..][..k];
    assert xs[k + 2..] == xs[1..][k + 1..];
    assert RemovedAt(xs, x, k + 1, [xs[0]] + rest);
  }

  /** Removing an element that is not in the first part removes it from the second. */
  lemma {:induction false} RemoveFirstAfter(xs: seq<Article>, x: Article, ys: seq<Article>)
    requires x !in xs && ys != [] && ys[0] == x
    ensures RemoveFirst(xs + ys, x) == xs + ys[1..]
  {
    if xs == [] {
      assert xs + ys == ys;
    } else {
      assert (xs + ys)[1..] == xs[1..] + ys;
      RemoveFirstAfter(xs[1..], x, ys);
    }
  }

  /**
   * One article of the walk: a Japanese article stays in place; any other
   * is the first of its value after the surviving prefix, so `remove`
   * takes exactly it out.
   */
  lemma FilterStep(prefix: seq<Article>, a: Article, rest: seq<Article>)
    ensures HasCjkTitle(a) ==> KeepJapanese(prefix + [a]) + rest == KeepJapanese(prefix) + ([a] + rest)
    ensures !HasCjkTitle(a) ==>
      && a in KeepJapanese(prefix) + ([a] + rest)
      && KeepJapanese(prefix + [a]) + rest == RemoveFirst(KeepJapanese(prefix) + ([a] + rest), a)
  {
    KeepJapaneseAppend(prefix, [a]);
    assert KeepJapanese([a]) == (if HasCjkTitle(a) then [a] else []);
    if !HasCjkTitle(a) {
      KeepJapaneseMembers(prefix);
      RemoveFirstAfter(KeepJapanese(prefix), a, [a] + rest);
      assert ([a] + rest)[1..] == rest;
      assert KeepJapanese(prefix) + [] == KeepJapanese(prefix);
    }
  }

  /** FilterStep at position i of the walk over a copy of the list. */
  lemma WalkStep(copy: seq<Article>, i: nat, live: seq<Article>)
    requires i < |copy| && live == KeepJapanese(copy[..i]) + copy[i..]
    ensures HasCjkTitle(copy[i]) ==> live == KeepJapanese(copy[..i + 1]) + copy[i + 1..]
    ensures !HasCjkTitle(copy[i]) ==>
      copy[i] in live && RemoveFirst(live, copy[i]) == KeepJapanese(copy[..i + 1]) + copy[i + 1..]
  {
    assert copy[..i + 1] == copy[..i] + [copy[i]];
    assert copy[i..] == [copy[i]] + copy[i + 1..];
    FilterStep(copy[..i], copy[i], copy[i + 1..]);
  }

  /** A feed as calibre hands it back: its article list is changed in place. */
  class Feed {
    var articles: seq<Article>

    constructor (articles: seq<Article>)
      ensures this.articles == articles
    {
      this.articles := articles;
    }
  }

  /**
   * The filtering of one feed: walk a copy of the article list and remove
   * from the live list each article without a CJK title.  The feed ends up
   * with exactly the Japanese articles, in their original order.
   */
  method FilterFeed(feed: Feed)
    modifies feed
    ensures feed.articles == KeepJapanese(old(feed.articles))
  {
    var copy := feed.articles;
    for i := 0 to |copy|
      invariant feed.articles == KeepJapanese(copy[..i]) + copy[i..]
    {
      var article := copy[i];
      var foundJapanese := FindJapanese(article.title);
      WalkStep(copy, i, feed.articles);
      if !foundJapanese {
        feed.articles := RemoveFirst(feed.articles, article);
      }
    }
    assert copy[..|copy|] == copy;
  }

  /**
   * parse_feeds after the parent call: filter every feed and return the
   * same list of feeds.  A feed listed twice is filtered twice, which
   * changes nothing more than filtering it once.
   */
  method ParseFeeds(feeds: seq<Feed>) returns (result: seq<Feed>)
    modifies set f | f in feeds
    ensures result == feeds
    ensures forall f :: f in feeds ==> f.articles == KeepJapanese(old(f.articles))
  {
    for i := 0 to |feeds|
      invariant forall f :: f in feeds ==>
        f.articles == (if f in feeds[..i] then KeepJapanese(old(f.articles)) else old(f.articles))
    {
      var feed := feeds[i];
      if feed in feeds[..i] {
        KeepJapaneseIdempotent(old(feed.articles));
      }
      FilterFeed(feed);
      assert forall f :: f in feeds[..i + 1] <==> f in feeds[..i] || f == feed;
    }
    assert feeds[..|feeds|] == feeds;
    result := feeds;
  }
}
