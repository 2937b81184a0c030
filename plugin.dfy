/**
 * `GitCommittersPlugin`: resolves the committers of one documentation page,
 * reusing a per-path cache of author lists across builds.
 *
 * Inputs the plugin obtains from libraries are parameters here: the commit
 * dates of the file's history (newest first, as GitPython yields them),
 * today's date, the page's optional `authors` metadata string, and the
 * outcome of the GraphQL blame request.
 */
module Plugin {
  import opened Wrappers
  import opened Dates
  import opened Text
  import opened Authors
  import opened Sorting

  /** The plugin options the modelled code reads. */
  datatype Config = Config(
    enterpriseHostname: string,
    repository: string,
    docsPath: string,
    enabled: bool)

  /** A cached page: `{last_commit_date, authors}`. */
  datatype PageRecord = PageRecord(lastCommitDate: Date, authors: seq<Author>)

  /**
   * The outcome of the blame request: an HTTP or other request error, or the
   * blame ranges' users, `None` where a range's user is null.
   */
  datatype RemoteResult = RequestFailed | Ranges(users: seq<Option<User>>)

  /** The cache file's document: `{cache_date, page_authors}`. */
  datatype CacheDocument = CacheDocument(cacheDate: Date, pageAuthors: map<string, PageRecord>)

  /**
   * What `on_page_context` leaves in the page context, or the
   * `AttributeError` it raises when `on_config` never set up the repository.
   */
  datatype PageOutcome =
    | Rendered(committers: seq<Author>, lastCommitDate: Option<Date>)
    | AttributeError

  /** The result of `list_contributors` and the cache it leaves behind. */
  datatype Resolution = Resolution(authors: seq<Author>, lastCommitDate: Date, cache: map<string, PageRecord>)

  /** The profile URL base: the enterprise host if one is configured, else github.com. */
  function GithubUrl(enterpriseHostname: string): (url: string)
    ensures |url| > 8 && url[..8] == "https://" && url[|url| - 1] == '/'
    ensures url[8..|url| - 1] == if enterpriseHostname != "" then enterpriseHostname else "github.com"
  {
    if enterpriseHostname != "" then
      assert ("https://" + enterpriseHostname + "/")[8..|enterpriseHostname| + 8] == enterpriseHostname;
      "https://" + enterpriseHostname + "/"
    else
      "https://github.com/"
  }

  /** The manual authors of a page with the given `authors` metadata. */
  function ManualAuthors(githubUrl: string, meta: Option<string>): seq<Author>
  {
    match meta
    case None => []
    case Some(s) =>
      var pieces := Split(s, ',');
      seq(|pieces|, i requires 0 <= i < |pieces| => ManualAuthor(githubUrl, pieces[i]))
  }

  /** The blame authors: collected from the ranges, then sorted; none on a request error. */
  function BlameAuthors(githubUrl: string, remote: RemoteResult, manual: seq<Author>): seq<Author>
  {
    match remote
    case RequestFailed => []
    case Ranges(users) => SortByLogin(Collect(githubUrl, users, manual))
  }

  /** The cached record is reused only when all three conditions hold. */
  predicate CacheHit(cache: map<string, PageRecord>, cacheDate: Option<Date>, path: string, lastCommitDate: Date)
  {
    path in cache && cacheDate.Some? && Before(lastCommitDate, cacheDate.value)
  }

  /** Specification of `list_contributors` for one path. */
  function Resolve(
    cache: map<string, PageRecord>, cacheDate: Option<Date>, githubUrl: string,
    path: string, meta: Option<string>, commits: seq<Date>, today: Date, remote: RemoteResult): Resolution
  {
    if commits == [] then Resolution([], today, cache)
    else
      var d := commits[0];
      if CacheHit(cache, cacheDate, path, d) then
        Resolution(cache[path].authors, cache[path].lastCommitDate, cache)
      else
        var manual := ManualAuthors(githubUrl, meta);
        var authors := manual + BlameAuthors(githubUrl, remote, manual);
        Resolution(authors, d, cache[path := PageRecord(d, authors)])
  }

  /**
   * The history loop: the date kept is that of the first commit yielded;
   * later commits never overwrite it.
   */
  method FindLastCommitDate(commits: seq<Date>) returns (last: Option<Date>)
    ensures last == if commits == [] then None else Some(commits[0])
  {
    last := None;
    for k := 0 to |commits|
      invariant last == if k == 0 then None else Some(commits[0])
    {
      if last.None? {
        last := Some(commits[k]);
      }
    }
  }

  /** A file with no commit gets no authors and today's date; the cache is left alone. */
  lemma ResolveUntracked(
    cache: map<string, PageRecord>, cacheDate: Option<Date>, githubUrl: string,
    path: string, meta: Option<string>, today: Date, remote: RemoteResult)
    ensures Resolve(cache, cacheDate, githubUrl, path, meta, [], today, remote) == Resolution([], today, cache)
  {
  }

  /** Only the newest commit matters: older commits in the history change nothing. */
  lemma ResolveIgnoresOlderCommits(
    cache: map<string, PageRecord>, cacheDate: Option<Date>, githubUrl: string,
    path: string, meta: Option<string>, commits: seq<Date>, older: seq<Date>, today: Date, remote: RemoteResult)
    requires commits != []
    ensures Resolve(cache, cacheDate, githubUrl, path, meta, commits, today, remote)
         == Resolve(cache, cacheDate, githubUrl, path, meta, [commits[0]] + older, today, remote)
  {
  }

  /**
   * On a cache hit the stored authors and date are returned verbatim, the
   * cache is unchanged, and neither the metadata nor the remote result is
   * consulted.
   */
  lemma ResolveCacheHit(
    cache: map<string, PageRecord>, cacheDate: Option<Date>, githubUrl: string,
    path: string, meta: Option<string>, commits: seq<Date>, today: Date, remote: RemoteResult,
    otherMeta: Option<string>, otherRemote: RemoteResult)
    requires commits != [] && CacheHit(cache, cacheDate, path, commits[0])
    ensures var r := Resolve(cache, cacheDate, githubUrl, path, meta, commits, today, remote);
      && r.authors == cache[path].authors
      && r.lastCommitDate == cache[path].lastCommitDate
      && r.cache == cache
      && r == Resolve(cache, cacheDate, githubUrl, path, otherMeta, commits, today, otherRemote)
  {
  }

  /**
   * On a cache miss the result is the manual authors followed by the blame
   * authors, dated by the newest commit, and the cache gains exactly that
   * record under `path`: every other key keeps its record.
   */
  lemma ResolveCacheMiss(
    cache: map<string, PageRecord>, cacheDate: Option<Date>, githubUrl: string,
    path: string, meta: Option<string>, commits: seq<Date>, today: Date, remote: RemoteResult)
    requires commits != [] && !CacheHit(cache, cacheDate, path, commits[0])
    ensures var r := Resolve(cache, cacheDate, githubUrl, path, meta, commits, today, remote);
      var manual := ManualAuthors(githubUrl, meta);
      && r.lastCommitDate == commits[0]
      && |manual| <= |r.authors| && r.authors[..|manual|] == manual
      && r.authors[|manual|..] == BlameAuthors(githubUrl, remote, manual)
      && path in r.cache && r.cache[path] == PageRecord(commits[0], r.authors)
      && r.cache.Keys == cache.Keys + {path}
      && forall p :: p in cache && p != path ==> r.cache[p] == cache[p]
  {
  }

  /** On a request error the result is exactly the manual authors. */
  lemma ResolveRequestFailed(
    cache: map<string, PageRecord>, cacheDate: Option<Date>, githubUrl: string,
    path: string, meta: Option<string>, commits: seq<Date>, today: Date)
    requires commits != [] && !CacheHit(cache, cacheDate, path, commits[0])
    ensures Resolve(cache, cacheDate, githubUrl, path, meta, commits, today, RequestFailed).authors
         == ManualAuthors(githubUrl, meta)
  {
  }

  /**
   * The manual authors: one per comma-separated piece of the metadata, in
   * declared order, untrimmed; none when the page has no `authors` field.
   */
  lemma ManualAuthorsFromPieces(githubUrl: string, meta: Option<string>)
    ensures meta.None? ==> ManualAuthors(githubUrl, meta) == []
    ensures meta.Some? ==>
      var pieces := Split(meta.value, ',');
      && |ManualAuthors(githubUrl, meta)| == |pieces|
      && Join(seq(|pieces|, i requires 0 <= i < |pieces| => ManualAuthors(githubUrl, meta)[i].login), ',') == meta.value
      && forall i :: 0 <= i < |pieces| ==>
        && ',' !in ManualAuthors(githubUrl, meta)[i].login
        && ManualAuthors(githubUrl, meta)[i] == ManualAuthor(githubUrl, pieces[i])
  {
    if meta.Some? {
      var pieces := Split(meta.value, ',');
      JoinSplit(meta.value, ',');
      SplitPiecesAvoidSeparator(meta.value, ',');
      assert seq(|pieces|, i requires 0 <= i < |pieces| => ManualAuthors(githubUrl, meta)[i].login) == pieces;
    }
  }

  /**
   * The blame authors after a successful request: sorted by lower-cased
   * login; no login twice; no manual login; each one built from the first
   * range with its login; and every user login of the ranges that is not a
   * manual login is there.
   */
  lemma BlameAuthorsProperties(githubUrl: string, users: seq<Option<User>>, manual: seq<Author>)
    ensures var blame := BlameAuthors(githubUrl, Ranges(users), manual);
      && Sorted(blame)
      && DistinctLogins(blame)
      && (forall i :: 0 <= i < |blame| ==> !HasLogin(manual, blame[i].login))
      && (forall i :: 0 <= i < |blame| ==>
            FirstUser(users, blame[i].login).Some?
            && blame[i] == BlameAuthor(githubUrl, FirstUser(users, blame[i].login).value))
      && (forall k :: 0 <= k < |users| && users[k].Some? && !HasLogin(manual, users[k].value.login) ==>
            HasLogin(blame, users[k].value.login))
  {
    var c := Collect(githubUrl, users, manual);
    var blame := SortByLogin(c);
    SortByLoginSorted(c);
    CollectDistinct(githubUrl, users, manual);
    SortByLoginDistinct(c);
    CollectAvoidsManual(githubUrl, users, manual);
    CollectFirstRangeWins(githubUrl, users, manual);
    forall i | 0 <= i < |blame|
      ensures !HasLogin(manual, blame[i].login)
      ensures FirstUser(users, blame[i].login).Some?
      ensures blame[i] == BlameAuthor(githubUrl, FirstUser(users, blame[i].login).value)
    {
      SortByLoginMembers(c, blame[i]);
      var n :| 0 <= n < |c| && c[n] == blame[i];
    }
    forall k | 0 <= k < |users| && users[k].Some? && !HasLogin(manual, users[k].value.login)
      ensures HasLogin(blame, users[k].value.login)
    {
      var login := users[k].value.login;
      CollectComplete(githubUrl, users, manual, login);
      var n :| 0 <= n < |c| && c[n].login == login;
      SortByLoginMembers(c, c[n]);
      var m :| 0 <= m < |blame| && blame[m] == c[n];
    }
  }

  /**
   * Manual authors take precedence: an author of the result whose login is
   * a manual login is one of the manual entries.
   */
  lemma ResolveManualPrecedence(
    cache: map<string, PageRecord>, cacheDate: Option<Date>, githubUrl: string,
    path: string, meta: Option<string>, commits: seq<Date>, today: Date, remote: RemoteResult)
    requires commits != [] && !CacheHit(cache, cacheDate, path, commits[0])
    ensures var authors := Resolve(cache, cacheDate, githubUrl, path, meta, commits, today, remote).authors;
      var manual := ManualAuthors(githubUrl, meta);
      forall i :: 0 <= i < |authors| && HasLogin(manual, authors[i].login) ==> i < |manual|
  {
    var manual := ManualAuthors(githubUrl, meta);
    var blame := BlameAuthors(githubUrl, remote, manual);
    if remote.Ranges? {
      BlameAuthorsProperties(githubUrl, remote.users, manual);
    }
    var authors := manual + blame;
    forall i | |manual| <= i < |authors| ensures !HasLogin(manual, authors[i].login) {
      assert authors[i] == blame[i - |manual|];
    }
  }

  /**
   * Resolving the same page twice with the same inputs gives the same
   * result, and the second call leaves the cache as the first left it.
   */
  lemma ResolveTwice(
    cache: map<string, PageRecord>, cacheDate: Option<Date>, githubUrl: string,
    path: string, meta: Option<string>, commits: seq<Date>, today: Date, remote: RemoteResult)
    ensures var r1 := Resolve(cache, cacheDate, githubUrl, path, meta, commits, today, remote);
      var r2 := Resolve(r1.cache, cacheDate, githubUrl, path, meta, commits, today, remote);
      r2 == r1
  {
    var r1 := Resolve(cache, cacheDate, githubUrl, path, meta, commits, today, remote);
    if commits != [] && !CacheHit(cache, cacheDate, path, commits[0]) {
      assert r1.cache[path := PageRecord(commits[0], r1.authors)] == r1.cache;
    }
  }

  class GitCommittersPlugin {
    var config: Config
    var enabled: bool
    /** `self.githuburl`, unset (`None`) until `on_config` runs with a repository. */
    var githubUrl: Option<string>
    var cachePageAuthors: map<string, PageRecord>
    /** `self.cache_date`; the empty string is `None`. */
    var cacheDate: Option<Date>

    /** `__init__`, with the options mkdocs loads into `self.config`. */
    constructor (config: Config)
      ensures this.config == config
      ensures enabled && githubUrl == None
      ensures cachePageAuthors == map[] && cacheDate == None
    {
      this.config := config;
      enabled := true;
      githubUrl := None;
      cachePageAuthors := map[];
      cacheDate := None;
    }

    /**
     * `on_config`: copies `enabled`; when enabled and a repository is given,
     * chooses the profile URL base.
     */
    method OnConfig()
      modifies this`enabled, this`githubUrl
      ensures enabled == config.enabled
      ensures githubUrl ==
        if config.enabled && config.repository != "" then Some(GithubUrl(config.enterpriseHostname))
        else old(githubUrl)
    {
      enabled := config.enabled;
      if !enabled {
        return;
      }
      if config.repository == "" {
        return;
      }
      if config.enterpriseHostname != "" {
        githubUrl := Some("https://" + config.enterpriseHostname + "/");
      } else {
        githubUrl := Some("https://github.com/");
      }
    }

    /**
     * `list_contributors(path, page)`: the page's authors and last commit
     * date, as `Resolve` specifies; the cache changes only on a miss.
     */
    method ListContributors(path: string, meta: Option<string>, commits: seq<Date>, today: Date, remote: RemoteResult)
      returns (authors: seq<Author>, lastCommitDate: Date)
      requires githubUrl.Some?
      modifies this`cachePageAuthors
      ensures var r := Resolve(old(cachePageAuthors), cacheDate, githubUrl.value, path, meta, commits, today, remote);
        authors == r.authors && lastCommitDate == r.lastCommitDate && cachePageAuthors == r.cache
    {
      var last := FindLastCommitDate(commits);
      if last.None? {
        return [], today;
      }
      lastCommitDate := last.value;

      if path in cachePageAuthors {
        if cacheDate.Some? && Before(lastCommitDate, cacheDate.value) {
          return cachePageAuthors[path].authors, cachePageAuthors[path].lastCommitDate;
        }
      }

      var manual: seq<Author> := [];
      if meta.Some? {
        manual := BuildManualAuthors(githubUrl.value, Split(meta.value, ','));
      }
      assert manual == ManualAuthors(githubUrl.value, meta);

      var blame: seq<Author> := [];
      match remote {
        case RequestFailed =>
        case Ranges(users) =>
          blame := CollectBlameAuthors(githubUrl.value, users, manual);
          blame := SortBlameAuthors(blame);
      }

      authors := manual + blame;
      cachePageAuthors := cachePageAuthors[path := PageRecord(lastCommitDate, authors)];
    }

    /**
     * `on_page_context`: `committers` is `[]` when disabled, otherwise the
     * authors of `docs_path + src_path`; the last commit date is set
     * whenever the plugin is enabled.
     */
    method OnPageContext(srcPath: string, meta: Option<string>, commits: seq<Date>, today: Date, remote: RemoteResult)
      returns (outcome: PageOutcome)
      modifies this`cachePageAuthors
      ensures !enabled ==> outcome == Rendered([], None) && cachePageAuthors == old(cachePageAuthors)
      ensures enabled && githubUrl.None? ==> outcome == AttributeError && cachePageAuthors == old(cachePageAuthors)
      ensures enabled && githubUrl.Some? ==>
        var r := Resolve(old(cachePageAuthors), cacheDate, githubUrl.value, config.docsPath + srcPath, meta, commits, today, remote);
        outcome == Rendered(r.authors, Some(r.lastCommitDate)) && cachePageAuthors == r.cache
    {
      var committers: seq<Author> := [];
      if !enabled {
        return Rendered(committers, None);
      }
      if githubUrl.None? {
        return AttributeError;
      }
      var gitPath := config.docsPath + srcPath;
      var authors, lastCommitDate := ListContributors(gitPath, meta, commits, today, remote);
      if authors != [] {
        committers := authors;
      }
      return Rendered(committers, Some(lastCommitDate));
    }

    /** `on_post_build`: the document written to the cache file, dated today. */
    method OnPostBuild(today: Date) returns (saved: CacheDocument)
      ensures saved.cacheDate == today && saved.pageAuthors == cachePageAuthors
    {
      saved := CacheDocument(today, cachePageAuthors);
    }

    /** `on_pre_build`: when a cache file exists, both fields are replaced by its content. */
    method OnPreBuild(file: Option<CacheDocument>)
      modifies this`cacheDate, this`cachePageAuthors
      ensures file.Some? ==> cacheDate == Some(file.value.cacheDate) && cachePageAuthors == file.value.pageAuthors
      ensures file.None? ==> cacheDate == old(cacheDate) && cachePageAuthors == old(cachePageAuthors)
    {
      if file.Some? {
        cacheDate := Some(file.value.cacheDate);
        cachePageAuthors := file.value.pageAuthors;
      }
    }
  }

  /**
   * Cache persistence across builds: what one build saves, the next build's
   * plugin loads back, with the save date as its cache date.
   */
  method SaveAndReload(previous: GitCommittersPlugin, today: Date) returns (next: GitCommittersPlugin)
    ensures next.config == previous.config
    ensures next.cacheDate == Some(today) && next.cachePageAuthors == previous.cachePageAuthors
  {
    var saved := previous.OnPostBuild(today);
    next := new GitCommittersPlugin(previous.config);
    next.OnPreBuild(Some(saved));
  }
}
