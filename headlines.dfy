/**
 * The selection step of the headline scraper's `run_task`: keep the headlines that
 * contain the keyword (ignoring case) when a keyword is given, then keep at most
 * `limit` of them with Python's `[:limit]` slice.
 */
module Headlines {
  import opened Wrappers
  import opened Seqs
  import opened Ascii

  /** The headline mentions the keyword, ignoring case. */
  predicate Mentions(keyword: string, headline: string)
  {
    ContainsIgnoreCase(headline, keyword)
  }

  /** `if keyword:` filter the headlines by the keyword; an empty keyword filters nothing. */
  function KeywordFilter(headlines: seq<string>, keyword: string): (r: seq<string>)
    ensures keyword == "" ==> r == headlines
    ensures keyword != "" ==> forall i :: 0 <= i < |r| ==> Mentions(keyword, r[i])
  {
    if keyword != "" then Filter(headlines, h => Mentions(keyword, h)) else headlines
  }

  /**
   * With a keyword, the filter keeps headlines in order, keeps every occurrence of a
   * headline that mentions the keyword and drops every other one.
   */
  lemma KeywordFilterSelects(headlines: seq<string>, keyword: string)
    requires keyword != ""
    ensures IsSubsequence(KeywordFilter(headlines, keyword), headlines)
    ensures forall h :: multiset(KeywordFilter(headlines, keyword))[h] ==
                        if Mentions(keyword, h) then multiset(headlines)[h] else 0
  {
    FilterIsSubsequence(headlines, h => Mentions(keyword, h));
    forall h ensures multiset(KeywordFilter(headlines, keyword))[h] ==
                     if Mentions(keyword, h) then multiset(headlines)[h] else 0
    {
      FilterCounts(headlines, h => Mentions(keyword, h), h);
    }
  }

  /** The `if keyword:` guard changes nothing: filtering by "" would keep every headline anyway. */
  lemma GuardIsRedundant(headlines: seq<string>, keyword: string)
    ensures KeywordFilter(headlines, keyword) == Filter(headlines, h => Mentions(keyword, h))
  {
    if keyword == "" {
      forall i | 0 <= i < |headlines| ensures Mentions(keyword, headlines[i]) {
        EmptyMatchesAll(headlines[i]);
      }
      FilterKeepsAll(headlines, h => Mentions(keyword, h));
    }
  }

  /** Where Python's `s[:limit]` stops on a list of length `n`; a negative limit counts from the end. */
  function SliceStop(limit: int, n: nat): (k: nat)
    ensures k <= n
    ensures limit >= 0 ==> k == if limit < n then limit else n
    ensures limit < 0 ==> k == if n + limit > 0 then n + limit else 0
  {
    if limit >= 0 then (if limit < n then limit else n)
    else (if n + limit > 0 then n + limit else 0)
  }

  /** `all_headlines[:limit]` after the keyword filter. */
  function SelectHeadlines(headlines: seq<string>, keyword: string, limit: int): (r: seq<string>)
    ensures |r| <= |headlines|
    ensures forall i :: 0 <= i < |r| ==> r[i] in headlines
  {
    var filtered := KeywordFilter(headlines, keyword);
    var r := filtered[..SliceStop(limit, |filtered|)];
    assert forall i :: 0 <= i < |r| ==> r[i] in headlines by {
      forall i | 0 <= i < |r| ensures r[i] in headlines {
        assert r[i] == filtered[i];
        if keyword != "" {
          FilterMembership(headlines, h => Mentions(keyword, h), r[i]);
        }
      }
    }
    r
  }

  /**
   * For a non-negative limit the result is the first min(limit, n) filtered headlines;
   * a negative limit drops that many from the end.
   */
  lemma SelectionIsPrefix(headlines: seq<string>, keyword: string, limit: int)
    ensures var filtered := KeywordFilter(headlines, keyword);
            var r := SelectHeadlines(headlines, keyword, limit);
            && r <= filtered
            && (limit >= 0 ==> |r| == if limit < |filtered| then limit else |filtered|)
            && (limit < 0 ==> |r| == if |filtered| + limit > 0 then |filtered| + limit else 0)
  {
  }

  /** Every headline returned mentions the keyword, and there are no more than `limit` of them. */
  lemma SelectionMentionsKeyword(headlines: seq<string>, keyword: string, limit: int)
    ensures forall i :: 0 <= i < |SelectHeadlines(headlines, keyword, limit)| ==>
              Mentions(keyword, SelectHeadlines(headlines, keyword, limit)[i])
    ensures limit >= 0 ==> |SelectHeadlines(headlines, keyword, limit)| <= limit
  {
    var filtered := KeywordFilter(headlines, keyword);
    GuardIsRedundant(headlines, keyword);
    var r := SelectHeadlines(headlines, keyword, limit);
    forall i | 0 <= i < |r| ensures Mentions(keyword, r[i]) {
      assert r[i] == filtered[i];
    }
  }

  /** The "metadata" object written with the headlines. */
  datatype Metadata = Metadata(timestamp: string, keywordUsed: string, count: int)

  /** The JSON document written to the output file. */
  datatype OutputFile = OutputFile(metadata: Metadata, headlines: seq<string>)

  /** What `run_task` returns, and what it writes (`None` when nothing is written). */
  datatype TaskResult = TaskResult(returned: seq<string>, written: Option<OutputFile>)

  /**
   * `run_task` given the fetched headlines (`None` when the request failed) and the
   * clock's timestamp: on failure nothing is written and [] is returned.
   */
  function RunTask(fetched: Option<seq<string>>, keyword: string, limit: int, timestamp: string): (t: TaskResult)
    ensures fetched.None? ==> t == TaskResult([], None)
    ensures fetched.Some? ==>
              t.returned == SelectHeadlines(fetched.value, keyword, limit) &&
              t.written.Some? &&
              t.written.value.headlines == t.returned &&
              t.written.value.metadata == Metadata(timestamp, keyword, |t.returned|)
  {
    match fetched
    case None => TaskResult([], None)
    case Some(all) =>
      var finalHeadlines := SelectHeadlines(all, keyword, limit);
      TaskResult(finalHeadlines, Some(OutputFile(Metadata(timestamp, keyword, |finalHeadlines|), finalHeadlines)))
  }
}
