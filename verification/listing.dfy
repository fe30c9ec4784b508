/** The article listings of app.js: the filter, map and shift of
    `parseSitemap` and the filter and map of `getAllArticles`. Fetching and
    parsing the sitemap, paging the help-center API and date arithmetic are
    outside the model: entries arrive as values, timestamps are integers and
    the recency cutoff (`now` minus the look-back window) is a parameter. */
module Listing {
  import opened Strings

  /** The `force` argument as JavaScript hands it over: a JSON boolean, a
      string (environment variables are strings), a number, or nothing. */
  datatype ForceArg = Flag(b: bool) | Text(s: string) | Number(n: int) | Absent

  /** `if (force !== true) force = null`: only the boolean `true` forces. */
  predicate Forced(force: ForceArg) {
    force == Flag(true)
  }

  /** The recency test both listings apply to a last-modified timestamp. */
  predicate Recent(force: ForceArg, modified: int, cutoff: int) {
    Forced(force) || modified >= cutoff
  }

  /** One `<url>` of the sitemap: its `loc` and its `lastmod`. */
  datatype SitemapEntry = SitemapEntry(loc: string, lastmod: int)

  /** One article record of the help-center API. */
  datatype ApiArticle = ApiArticle(htmlUrl: string, editedAt: int)

  /** The predicate of `parseSitemap`'s `filter`. */
  predicate KeepEntry(e: SitemapEntry, filter: string, force: ForceArg, cutoff: int) {
    Recent(force, e.lastmod, cutoff) && Contains(e.loc, filter)
  }

  /** The `loc` of every entry the filter keeps, in sitemap order. */
  function KeptLocs(entries: seq<SitemapEntry>, filter: string, force: ForceArg, cutoff: int)
    : (r: seq<string>)
    ensures |r| <= |entries|
    ensures forall i :: 0 <= i < |r| ==> Contains(r[i], filter)
    decreases |entries|
  {
    if entries == [] then []
    else
      (if KeepEntry(entries[0], filter, force, cutoff) then [entries[0].loc] else [])
      + KeptLocs(entries[1..], filter, force, cutoff)
  }

  /** `parseSitemap`: the kept locations with the first one removed
      (`shift` on an empty array leaves it empty). */
  function ParseSitemap(entries: seq<SitemapEntry>, filter: string, force: ForceArg, cutoff: int)
    : (r: seq<string>)
    ensures var kept := KeptLocs(entries, filter, force, cutoff);
      |r| == (if |kept| == 0 then 0 else |kept| - 1)
      && forall i :: 0 <= i < |r| ==> r[i] == kept[i + 1]
  {
    var urls := KeptLocs(entries, filter, force, cutoff);
    if |urls| == 0 then [] else urls[1..]
  }

  /** `getAllArticles`: the `html_url` of every article edited recently
      enough, in listing order; no path filter and no shift. */
  function ArticleUrls(articles: seq<ApiArticle>, force: ForceArg, cutoff: int): (r: seq<string>)
    ensures |r| <= |articles|
    decreases |articles|
  {
    if articles == [] then []
    else
      (if Recent(force, articles[0].editedAt, cutoff) then [articles[0].htmlUrl] else [])
      + ArticleUrls(articles[1..], force, cutoff)
  }

  /** Filtering a concatenation filters each part, keeping their order. */
  lemma {:induction false} KeptLocsAppend(a: seq<SitemapEntry>, b: seq<SitemapEntry>,
                                          filter: string, force: ForceArg, cutoff: int)
    ensures KeptLocs(a + b, filter, force, cutoff)
      == KeptLocs(a, filter, force, cutoff) + KeptLocs(b, filter, force, cutoff)
    decreases |a|
  {
    if a == [] {
      assert a + b == b;
    } else {
      var head := if KeepEntry(a[0], filter, force, cutoff) then [a[0].loc] else [];
      assert (a + b)[0] == a[0];
      assert (a + b)[1..] == a[1..] + b;
      assert KeptLocs(a + b, filter, force, cutoff) == head + KeptLocs(a[1..] + b, filter, force, cutoff);
      assert KeptLocs(a, filter, force, cutoff) == head + KeptLocs(a[1..], filter, force, cutoff);
      KeptLocsAppend(a[1..], b, filter, force, cutoff);
    }
  }

  /** Reference definition: some entry carrying `u` was modified at or after
      the cutoff (or `force` is the boolean `true`) and holds the path filter
      somewhere in its location. */
  ghost predicate SitemapLists(entries: seq<SitemapEntry>, u: string, filter: string,
                               force: ForceArg, cutoff: int) {
    exists e, i :: e in entries && e.loc == u && (Forced(force) || e.lastmod >= cutoff)
      && OccursAt(e.loc, filter, i)
  }

  /** A location is kept exactly when the reference definition lists it. */
  lemma {:induction false} KeptLocsMembership(entries: seq<SitemapEntry>, filter: string,
                                              force: ForceArg, cutoff: int, u: string)
    ensures u in KeptLocs(entries, filter, force, cutoff) <==>
      SitemapLists(entries, u, filter, force, cutoff)
    decreases |entries|
  {
    if entries != [] {
      var e0 := entries[0];
      KeptLocsMembership(entries[1..], filter, force, cutoff, u);
      ContainsIff(e0.loc, filter);
      if SitemapLists(entries[1..], u, filter, force, cutoff) {
        var e, i :| e in entries[1..] && e.loc == u && (Forced(force) || e.lastmod >= cutoff)
          && OccursAt(e.loc, filter, i);
        assert e in entries;
      }
      if SitemapLists(entries, u, filter, force, cutoff) {
        var e, i :| e in entries && e.loc == u && (Forced(force) || e.lastmod >= cutoff)
          && OccursAt(e.loc, filter, i);
        if e != e0 {
          assert e in entries[1..];
        }
      }
    }
  }

  /** The entry `shift` removes is the first one the filter keeps: entries
      before it are all filtered out, and everything after it is listed as
      the filter alone would list it. */
  lemma ParseSitemapDropsFirstKept(pre: seq<SitemapEntry>, e: SitemapEntry, post: seq<SitemapEntry>,
                                   filter: string, force: ForceArg, cutoff: int)
    requires forall x :: x in pre ==> !KeepEntry(x, filter, force, cutoff)
    requires KeepEntry(e, filter, force, cutoff)
    ensures ParseSitemap(pre + [e] + post, filter, force, cutoff)
      == KeptLocs(post, filter, force, cutoff)
  {
    KeptLocsAppend(pre + [e], post, filter, force, cutoff);
    KeptLocsAppend(pre, [e], filter, force, cutoff);
    NoneKept(pre, filter, force, cutoff);
  }

  lemma {:induction false} NoneKept(entries: seq<SitemapEntry>, filter: string, force: ForceArg, cutoff: int)
    requires forall x :: x in entries ==> !KeepEntry(x, filter, force, cutoff)
    ensures KeptLocs(entries, filter, force, cutoff) == []
    decreases |entries|
  {
    if entries != [] {
      NoneKept(entries[1..], filter, force, cutoff);
    }
  }

  /** An article is listed exactly when it was edited at or after the cutoff
      or `force` is the boolean `true`. */
  lemma {:induction false} ArticleUrlsMembership(articles: seq<ApiArticle>, force: ForceArg,
                                                 cutoff: int, u: string)
    ensures u in ArticleUrls(articles, force, cutoff) <==>
      exists a :: a in articles && a.htmlUrl == u && (Forced(force) || a.editedAt >= cutoff)
    decreases |articles|
  {
    if articles != [] {
      ArticleUrlsMembership(articles[1..], force, cutoff, u);
      forall a | a in articles[1..] ensures a in articles { }
      if exists a :: a in articles && a.htmlUrl == u && (Forced(force) || a.editedAt >= cutoff) {
        var a :| a in articles && a.htmlUrl == u && (Forced(force) || a.editedAt >= cutoff);
        if a != articles[0] {
          assert a in articles[1..];
        }
      }
    }
  }

  /** With `force` the boolean `true`, every article is listed, in order. */
  lemma {:induction false} ForcedListsEverything(articles: seq<ApiArticle>, force: ForceArg, cutoff: int)
    requires Forced(force)
    ensures var r := ArticleUrls(articles, force, cutoff);
      |r| == |articles| && forall i :: 0 <= i < |r| ==> r[i] == articles[i].htmlUrl
    decreases |articles|
  {
    if articles != [] {
      ForcedListsEverything(articles[1..], force, cutoff);
    }
  }

  /** Any `force` other than the boolean `true` (the string "true" of an
      environment variable included) filters exactly like `false`. */
  lemma {:induction false} OnlyBooleanTrueForces(articles: seq<ApiArticle>, force: ForceArg, cutoff: int)
    requires !Forced(force)
    ensures ArticleUrls(articles, force, cutoff) == ArticleUrls(articles, Flag(false), cutoff)
    decreases |articles|
  {
    if articles != [] {
      OnlyBooleanTrueForces(articles[1..], force, cutoff);
    }
  }

  /** The sitemap entry an API article corresponds to. */
  function AsEntry(a: ApiArticle): SitemapEntry {
    SitemapEntry(a.htmlUrl, a.editedAt)
  }

  /** Both listings apply the same recency rule: with an empty path filter
      (which every location contains) the sitemap filter, before its
      `shift`, keeps exactly the URLs the API listing keeps. */
  lemma {:induction false} SitemapWithoutFilterIsApiListing(articles: seq<ApiArticle>, force: ForceArg,
                                                            cutoff: int)
    ensures var entries := seq(|articles|, i requires 0 <= i < |articles| => AsEntry(articles[i]));
      KeptLocs(entries, "", force, cutoff) == ArticleUrls(articles, force, cutoff)
    decreases |articles|
  {
    var entries := seq(|articles|, i requires 0 <= i < |articles| => AsEntry(articles[i]));
    if articles != [] {
      SitemapWithoutFilterIsApiListing(articles[1..], force, cutoff);
      assert entries[1..] == seq(|articles[1..]|, i requires 0 <= i < |articles[1..]| => AsEntry(articles[1..][i]));
      assert Contains(entries[0].loc, "");
    }
  }
}
