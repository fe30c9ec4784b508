/** The staging step of app.js, `parseZendeskArticles`: the file name, the
    article id the URL carries, the minimum-body rule, the staged content and
    the task handed to the upload queue. The article fetch, the
    markup-to-text conversion and the file write are outside the model; their
    results arrive with each article as values. */
module Staging {
  import opened Options
  import opened Strings

  /** A task is produced only when the converted body is longer than this. */
  const MinBodyLength: nat := 3

  /** The fetched article after `convert(...).trim()`, or the exception the
      fetch (or the conversion of a missing field) raised. */
  datatype Fetch = FetchFailed | Fetched(title: string, body: string)

  /** What `fs.writeFile` reported. */
  datatype Write = Written | WriteFailed

  /** One listed URL together with what fetching and writing it gives. */
  datatype Article = Article(url: string, fetch: Fetch, write: Write)

  /** The upload credentials every task carries unchanged. */
  datatype Credentials = Credentials(apiKey: string, projectId: string)

  /** The object pushed to the upload queue. */
  datatype UploadTask = UploadTask(filename: string, apiKey: string, projectId: string)

  /** A file written to the staging directory. */
  datatype StagedFile = StagedFile(name: string, content: string)

  /** How the call ends: it returns nothing, it throws, or it returns a task. */
  datatype Outcome = NoTask | Raised | Task(task: UploadTask)

  datatype Staged = Staged(outcome: Outcome, written: Option<StagedFile>)

  /** `url.substring(url.lastIndexOf('/') + 1) + '.txt'`. */
  function Filename(url: string): (r: string)
    ensures |r| >= 4 && r[|r| - 4..] == ".txt"
    ensures '/' !in r[..|r| - 4]
    ensures var stem := r[..|r| - 4];
      |stem| <= |url| && url[|url| - |stem|..] == stem
  {
    AfterLast(url, '/') + ".txt"
  }

  /** The file name is the last path segment, whatever precedes it. */
  lemma FilenameOfPath(path: string, segment: string)
    requires '/' !in segment
    ensures Filename(path + "/" + segment) == segment + ".txt"
  {
    AfterLastOfJoin(path, '/', segment);
  }

  /** The regular expression `/\/(\d+)-/` matches at `p` with a group of `k`
      digits. */
  ghost predicate IdAt(s: string, p: int, k: int) {
    0 <= p && 1 <= k && p + k + 1 < |s|
    && s[p] == '/' && s[p + k + 1] == '-'
    && forall j :: p + 1 <= j <= p + k ==> IsDigit(s[j])
  }

  /** Whether the expression matches at `p`: the digits after the slash are
      taken greedily, and since `-` is no digit, backtracking cannot help. */
  predicate MatchesAt(s: string, p: nat)
    requires p < |s|
  {
    s[p] == '/' && DigitRun(s, p + 1) >= 1 && p + 1 + DigitRun(s, p + 1) < |s|
    && s[p + 1 + DigitRun(s, p + 1)] == '-'
  }

  /** The greedy test agrees with the expression, and the group it captures
      is the only one possible at that position. */
  lemma MatchesAtIff(s: string, p: nat)
    requires p < |s|
    ensures MatchesAt(s, p) <==> exists k :: IdAt(s, p, k)
    ensures forall k :: IdAt(s, p, k) ==> k == DigitRun(s, p + 1)
  {
    var d := DigitRun(s, p + 1);
    forall k | IdAt(s, p, k) ensures k == d {
    }
    if MatchesAt(s, p) {
      assert IdAt(s, p, d);
    }
  }

  /** The leftmost position at or after `from` where the expression matches. */
  function FirstMatch(s: string, from: nat): (r: Option<nat>)
    ensures r.Some? ==> from <= r.value < |s| && MatchesAt(s, r.value)
    ensures r.Some? ==> forall q :: from <= q < r.value ==> !MatchesAt(s, q)
    ensures r.None? ==> forall q :: from <= q < |s| ==> !MatchesAt(s, q)
    decreases |s| - from
  {
    if from >= |s| then None
    else if MatchesAt(s, from) then Some(from)
    else FirstMatch(s, from + 1)
  }

  /** `url.match(/\/(\d+)-/)[1]`: the digits of the leftmost match. */
  function ArticleId(url: string): (r: Option<string>)
    ensures r.Some? ==> |r.value| >= 1 && forall j :: 0 <= j < |r.value| ==> IsDigit(r.value[j])
  {
    match FirstMatch(url, 0)
    case None => None
    case Some(p) => Some(url[p + 1..p + 1 + DigitRun(url, p + 1)])
  }

  /** `ArticleId` finds a group exactly when the expression matches somewhere,
      and the group it returns is the one of the leftmost match. */
  lemma ArticleIdIsLeftmostMatch(url: string)
    ensures ArticleId(url).None? <==> forall p, k :: !IdAt(url, p, k)
    ensures ArticleId(url).Some? ==> exists p ::
      IdAt(url, p, |ArticleId(url).value|)
      && url[p + 1..p + 1 + |ArticleId(url).value|] == ArticleId(url).value
      && forall q, k :: 0 <= q < p ==> !IdAt(url, q, k)
  {
    forall q, k | IdAt(url, q, k) ensures q < |url| && MatchesAt(url, q) && k == DigitRun(url, q + 1) {
      MatchesAtIff(url, q);
    }
    match FirstMatch(url, 0)
    case None =>
    case Some(p) =>
      var d := DigitRun(url, p + 1);
      MatchesAtIff(url, p);
      assert IdAt(url, p, d);
      assert |ArticleId(url).value| == d;
  }

  /** The staged file's content: title, a blank line, body. */
  function Content(title: string, body: string): (r: string)
    ensures |r| == |title| + 2 + |body|
    ensures r[..|title|] == title && r[|title|..|title| + 2] == "\n\n" && r[|title| + 2..] == body
  {
    title + "\n\n" + body
  }

  /** The first position at or after `from` that starts a blank line ("\n\n"). */
  function BlankLine(s: string, from: nat): (r: Option<nat>)
    ensures r.Some? ==> from <= r.value && r.value + 1 < |s| && s[r.value] == '\n' && s[r.value + 1] == '\n'
    ensures r.Some? ==> forall q :: from <= q < r.value ==> !(s[q] == '\n' && s[q + 1] == '\n')
    ensures r.None? ==> forall q :: from <= q && q + 1 < |s| ==> !(s[q] == '\n' && s[q + 1] == '\n')
    decreases |s| - from
  {
    if from + 1 >= |s| then None
    else if s[from] == '\n' && s[from + 1] == '\n' then Some(from)
    else BlankLine(s, from + 1)
  }

  /** Reading a staged file back: the text before its first blank line and
      the text after it. */
  function SplitContent(content: string): (r: Option<(string, string)>)
    ensures r.Some? ==> Content(r.value.0, r.value.1) == content
  {
    match BlankLine(content, 0)
    case None => None
    case Some(i) => Some((content[..i], content[i + 2..]))
  }

  /** A title with no blank line in it and no newline at its end (`trim`
      removes trailing ones). */
  predicate NoBlankLine(title: string) {
    forall i :: 0 <= i < |title| && title[i] == '\n' ==> i + 1 < |title| && title[i + 1] != '\n'
  }

  /** The staged content gives back the title and the body it was made of. */
  lemma ContentRoundTrip(title: string, body: string)
    requires NoBlankLine(title)
    ensures SplitContent(Content(title, body)) == Some((title, body))
  {
    var c := Content(title, body);
    forall q | 0 <= q < |title| && q + 1 < |c|
      ensures !(c[q] == '\n' && c[q + 1] == '\n')
    {
      assert c[q] == title[q];
      if q + 1 < |title| {
        assert c[q + 1] == title[q + 1];
      }
    }
    assert c[|title|] == '\n' && c[|title| + 1] == '\n';
    assert BlankLine(c, 0) == Some(|title|);
  }

  /** `parseZendeskArticles` for one article. `shouldContinue` is the
      tracker flag read after the write completes. */
  function Stage(a: Article, creds: Credentials, shouldContinue: bool): (r: Staged)
    ensures r.outcome.Task? ==> r.written.Some? && r.outcome.task.filename == r.written.value.name
    ensures r.outcome.NoTask? ==> r.written.None?
  {
    if ArticleId(a.url).None? then Staged(NoTask, None)
    else
      match a.fetch
      case FetchFailed => Staged(Raised, None)
      case Fetched(title, body) =>
        if |body| <= MinBodyLength then Staged(NoTask, None)
        else
          match a.write
          case WriteFailed => Staged(Raised, None)
          case Written =>
            var file := StagedFile(Filename(a.url), Content(title, body));
            if shouldContinue then Staged(Task(UploadTask(file.name, creds.apiKey, creds.projectId)), Some(file))
            else Staged(Raised, Some(file))
  }

  /** When staging returns a task, throws, or returns nothing, and what it
      writes: a task needs a URL with an article id, a fetched body longer
      than `MinBodyLength`, a successful write and the flag still up; it
      carries the file name and the credentials unchanged, and the file holds
      exactly the title, a blank line and the body. A missing id or a short
      body returns nothing and records no failure. */
  lemma StageOutcomes(a: Article, creds: Credentials, shouldContinue: bool)
    ensures var r := Stage(a, creds, shouldContinue);
      && (r.outcome.Task? <==>
           ArticleId(a.url).Some? && a.fetch.Fetched? && |a.fetch.body| > MinBodyLength
           && a.write.Written? && shouldContinue)
      && (r.outcome.NoTask? <==>
           ArticleId(a.url).None? || (a.fetch.Fetched? && |a.fetch.body| <= MinBodyLength))
      && (r.outcome.Task? ==>
           r.outcome.task == UploadTask(Filename(a.url), creds.apiKey, creds.projectId))
      && (r.written.Some? <==>
           ArticleId(a.url).Some? && a.fetch.Fetched? && |a.fetch.body| > MinBodyLength && a.write.Written?)
      && (r.written.Some? ==>
           r.written.value == StagedFile(Filename(a.url), Content(a.fetch.title, a.fetch.body)))
  {
  }
}
