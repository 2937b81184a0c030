# mkdocs-git-committers-plugin-2 — verified model of `GitCommittersPlugin`

This project models the core of the MkDocs plugin `git-committers-2`, which
attaches to each documentation page the list of people who contributed to its
source file. For one file, `list_contributors` does the following:

1. It takes the date of the file's most recent commit. A file with no commit
   gets no authors and today's date.
2. It reuses the cached record of the file when the path is cached, a cache
   date is set, and the commit is strictly older than the cache date.
3. Otherwise it builds the manual authors from the page's `authors` front
   matter (comma-separated logins).
4. It builds the blame authors from the GitHub GraphQL blame ranges. Null
   users are skipped. Logins already collected or declared manually are
   dropped. The list is sorted by lower-cased login.
5. It returns manual ++ blame and stores that record in the cache under the
   path.

`on_page_context` calls it with the key `docs_path + src_path` unless the
plugin is disabled. `on_config` chooses the profile URL base: the enterprise
host or github.com. `on_pre_build` and `on_post_build` load and save the cache
document.

Modules:

- `Wrappers`: the `Option` type.
- `Dates`: dates as (year, month, day) triples. `Before` orders them as
  `strptime` does.
- `Text`: Python's `str.lower()`, the ordering of Python strings
  (`LexLe`), `str.split` and `str.join`.
- `Authors`: author records, the manual-author loop and the blame-range loop.
  The spec function `Collect` is checked against `FirstUser`, an independent
  reference definition.
- `Sorting`: the stable sort by lower-cased login. It is proved sorted, a
  permutation and stable. It is also proved to be the only sorted, stable
  rearrangement, so Python's `list.sort` yields the same list.
- `Plugin`: `Resolve`, the specification of `list_contributors`, with its
  lemmas, and the class `GitCommittersPlugin`. The class holds the fields
  `config`, `enabled`, `githubUrl`, `cachePageAuthors` and `cacheDate`.
  `ListContributors` and `OnPageContext` are proved against `Resolve`;
  `OnConfig` and `OnPreBuild` state the fields they set, and `OnPostBuild`
  states the document it saves. The
  loops of `list_contributors` live in module-level methods that
  `ListContributors` calls: `FindLastCommitDate`, `BuildManualAuthors`,
  `CollectBlameAuthors` and `SortBlameAuthors`.

Three behaviours of plugin.py a reader may not expect:

- An enabled plugin whose `repository` option is empty never sets
  `localrepo` or `githuburl` (plugin.py:45-47). So the first
  `on_page_context` raises `AttributeError` at line 89; it does not fall back
  to manual-only results. `OnPageContext` returns `AttributeError` in that case
  and leaves the cache unchanged.
- Manual authors are not deduplicated among themselves. The model promises
  only that no blame author repeats a manual login, and that an author of the
  result whose login is a manual login is one of the manual entries.
- `committers` is set to the author list only when that list is non-empty.
  Otherwise it stays `[]`. Both cases give the same value, so `OnPageContext`
  states `committers == authors`.

## Model

| member | source | states |
|---|---|---|
| Plugin.Resolve | mkdocs_git_committers_plugin_2/plugin.py:88-151 | definition: the authors, the date and the new page cache of `list_contributors` for one path; its promises are the `Resolve*` lemmas |
| Plugin.CacheHit | mkdocs_git_committers_plugin_2/plugin.py:100-101 | definition: the cached record is reused when the path is cached, a cache date is set, and the newest commit is strictly before it |
| Plugin.ManualAuthors | mkdocs_git_committers_plugin_2/plugin.py:104-108 | definition: one manual author per comma-separated piece of the `authors` metadata, none without it; see `ManualAuthorsFromPieces` |
| Plugin.BlameAuthors | mkdocs_git_committers_plugin_2/plugin.py:110-144 | definition: none on a request error, otherwise the collected range users sorted by lower-cased login; see `BlameAuthorsProperties` |
| Authors.Collect | mkdocs_git_committers_plugin_2/plugin.py:132-142 | definition: the blame list after the loop has seen the ranges; see the `Collect*` lemmas |
| Sorting.SortByLogin | mkdocs_git_committers_plugin_2/plugin.py:144 | definition: stable insertion of each author by lower-cased login; see the `SortByLogin*` lemmas |
| Text.Split | mkdocs_git_committers_plugin_2/plugin.py:106 | definition: `str.split(sep)`, always at least one piece, empty pieces kept |
| Text.Lower | mkdocs_git_committers_plugin_2/plugin.py:144 | definition: `str.lower()` on ASCII letters, the sort key of a login |
| Dates.Before | mkdocs_git_committers_plugin_2/plugin.py:101 | definition: `strptime(a) < strptime(b)` on `YYYY-MM-DD` dates, strictly earlier by year, then month, then day |
| Text.LexLe | mkdocs_git_committers_plugin_2/plugin.py:144 | definition: Python's `<=` on strings, lexicographic by code point with a proper prefix smaller; see the `LexLe*` lemmas |
| Authors.ManualAuthor | mkdocs_git_committers_plugin_2/plugin.py:108 | definition: the record of one manual username: `login = name = username`, `url = githuburl + username`, `avatar = avatar base + username` |
| Authors.BlameAuthor | mkdocs_git_committers_plugin_2/plugin.py:137-142 | definition: the record of one blame user: its login, name and avatar, with `url = githuburl + login` |
| Authors.HasLogin | mkdocs_git_committers_plugin_2/plugin.py:141 | definition: `any(x['login'] == login for x in authors)` |
| Sorting.Key | mkdocs_git_committers_plugin_2/plugin.py:144 | definition: the sort key `x['login'].lower()` |
| Plugin.GitCommittersPlugin.constructor | mkdocs_git_committers_plugin_2/plugin.py:29-35 | a new plugin is enabled, has no profile URL base, an empty page cache and no cache date |
| Plugin.GitCommittersPlugin.OnConfig | mkdocs_git_committers_plugin_2/plugin.py:37-51 | `enabled` is copied from the options; the URL base is set only when the plugin is enabled and a repository is given, and is otherwise left as it was |
| Plugin.GithubUrl | mkdocs_git_committers_plugin_2/plugin.py:48-51 | the URL base is `https://<host>/`, where the host is the enterprise hostname when it is non-empty and `github.com` otherwise |
| Plugin.FindLastCommitDate | mkdocs_git_committers_plugin_2/plugin.py:88-92 | the history loop keeps the date of the first commit yielded (the newest); with no commit there is no date |
| Plugin.GitCommittersPlugin.ListContributors | mkdocs_git_committers_plugin_2/plugin.py:88-151 | the returned authors, the date and the new page cache are those `Resolve` gives for the old cache, the cache date and the inputs |
| Plugin.ResolveUntracked | mkdocs_git_committers_plugin_2/plugin.py:94-97 | a file with no commit yields `([], today)` and the cache is unchanged |
| Plugin.ResolveIgnoresOlderCommits | mkdocs_git_committers_plugin_2/plugin.py:89-92 | the result depends only on the newest commit: replacing every older commit changes nothing |
| Plugin.ResolveCacheHit | mkdocs_git_committers_plugin_2/plugin.py:99-102 | on a hit the stored authors and stored date come back verbatim, the cache is unchanged, and the result is the same for any metadata and any remote result |
| Plugin.ResolveCacheMiss | mkdocs_git_committers_plugin_2/plugin.py:146-151 | on a miss the date is the newest commit's; the manual authors are a prefix of the result, followed exactly by the blame authors; the cache gains `path -> {date, authors}` and every other key keeps its record |
| Plugin.ResolveRequestFailed | mkdocs_git_committers_plugin_2/plugin.py:113-126 | on an HTTP or other request error the result equals the manual authors |
| Plugin.ManualAuthorsFromPieces | mkdocs_git_committers_plugin_2/plugin.py:104-108 | no `authors` field gives no manual authors; otherwise there is one entry per comma-separated piece, in order and untrimmed; no login contains a comma, and joining the logins with commas gives back the metadata string |
| Authors.BuildManualAuthors | mkdocs_git_committers_plugin_2/plugin.py:104-108 | the loop produces one entry per username, in order, with `login = name = username`, `url = githubUrl + username` and `avatar = avatar base + username` |
| Text.JoinSplit | mkdocs_git_committers_plugin_2/plugin.py:106 | joining the pieces of `s.split(sep)` with `sep` gives `s` back |
| Text.SplitJoin | mkdocs_git_committers_plugin_2/plugin.py:106 | splitting a join of separator-free pieces gives the pieces back |
| Text.SplitPiecesAvoidSeparator | mkdocs_git_committers_plugin_2/plugin.py:106 | no piece of a split contains the separator |
| Authors.CollectBlameAuthors | mkdocs_git_committers_plugin_2/plugin.py:132-142 | the blame-range loop computes `Collect` of all the ranges |
| Authors.FirstUser | mkdocs_git_committers_plugin_2/plugin.py:132-142 | reference definition: the user of the first range with a given login; when there is one, it carries that login and no earlier range has that login; it is none exactly when no range has that login |
| Authors.CollectDistinct | mkdocs_git_committers_plugin_2/plugin.py:141-142 | no login occurs twice among the collected blame authors |
| Authors.CollectAvoidsManual | mkdocs_git_committers_plugin_2/plugin.py:141-142 | no collected blame author has a manual author's login |
| Authors.CollectComplete | mkdocs_git_committers_plugin_2/plugin.py:132-142 | every login of a non-null range that is not a manual login is collected |
| Authors.CollectFirstRangeWins | mkdocs_git_committers_plugin_2/plugin.py:137-142 | every collected author is built from the first range carrying its login, so that range's name and avatar win |
| Sorting.SortBlameAuthors | mkdocs_git_committers_plugin_2/plugin.py:144 | the sort produces `SortByLogin` of its input |
| Sorting.SortByLoginSorted | mkdocs_git_committers_plugin_2/plugin.py:144 | the sorted list is non-decreasing by lower-cased login |
| Sorting.SortByLoginPermutes | mkdocs_git_committers_plugin_2/plugin.py:144 | the sorted list is a permutation of the input |
| Sorting.SortByLoginStable | mkdocs_git_committers_plugin_2/plugin.py:144 | stability: for every key, the authors with that key keep their input order |
| Sorting.StableSortIsSortByLogin | mkdocs_git_committers_plugin_2/plugin.py:144 | any sorted and stable rearrangement of the input (such as Python's `list.sort`) equals `SortByLogin` |
| Sorting.SortByLoginDistinct | mkdocs_git_committers_plugin_2/plugin.py:144 | sorting keeps the logins distinct |
| Plugin.BlameAuthorsProperties | mkdocs_git_committers_plugin_2/plugin.py:132-144 | the blame authors after a successful request are sorted, have distinct logins, share no login with the manual authors, are each built from the first range with their login, and include every non-manual login of the ranges |
| Plugin.ResolveManualPrecedence | mkdocs_git_committers_plugin_2/plugin.py:141-146 | an author of the result whose login is a manual login lies in the manual prefix |
| Plugin.ResolveTwice | mkdocs_git_committers_plugin_2/plugin.py:99-151 | resolving the same page again with the same inputs gives the same result and leaves the cache as the first call left it |
| Plugin.GitCommittersPlugin.OnPageContext | mkdocs_git_committers_plugin_2/plugin.py:153-167 | disabled: `committers` is `[]`, no date is set and the cache is unchanged; enabled but never configured: `AttributeError`; otherwise `committers` and the date are the result of `Resolve` for `docs_path + src_path`, and the cache is updated accordingly |
| Plugin.GitCommittersPlugin.OnPostBuild | mkdocs_git_committers_plugin_2/plugin.py:169-175 | the saved document holds today's date and the current page cache |
| Plugin.GitCommittersPlugin.OnPreBuild | mkdocs_git_committers_plugin_2/plugin.py:177-184 | when a cache file exists, both the cache date and the page cache are replaced by its content; otherwise both are unchanged |
| Plugin.SaveAndReload | mkdocs_git_committers_plugin_2/plugin.py:169-184 | what one build saves, the next build's plugin loads back, with the save date as its cache date |
| Text.LexLeTransitive | mkdocs_git_committers_plugin_2/plugin.py:144 | the ordering of Python strings used as the sort key is transitive |
| Text.LexLeAntisymmetric | mkdocs_git_committers_plugin_2/plugin.py:144 | two strings that are each at most the other are equal |
| Text.LexLeTotal | mkdocs_git_committers_plugin_2/plugin.py:144 | any two strings are comparable |

## Left out

- Git history walking (`Commit.iter_items`) is not modelled. The commit dates of the file, newest first, are a parameter.
- The conversion of commit times to UTC dates (`time.gmtime`, `strftime`) is not modelled. Dates are given as (year, month, day) values, and date strings that `strptime` would reject are not modelled.
- `datetime.now()` is not modelled. Today's date is a parameter.
- The GraphQL request is not modelled: the query template, the hand-built JSON body, `requests.post`, the bearer token and `raise_for_status`. Its outcome is a parameter: `RequestFailed` for the HTTP error and for any other exception, or the list of range users. A `repository` option without a `/` makes the request stage raise `IndexError` inside the `try`, which is one source of `RequestFailed`. The `branch` and `github_token` fields are used only in the request and are not modelled.
- Parsing of the response (`json.loads` and the dictionary navigation) is not modelled. A malformed response or a GraphQL `errors` payload escapes the `except` clauses and aborts the build. The model takes only a well-formed list of range users.
- A null `name` of a GitHub user is not distinguished from a string; `User.name` is a string.
- Python's `str.lower()` is modelled for ASCII letters only. GitHub logins are ASCII.
- Page metadata is an optional string. An `authors` value of another type (a YAML list, say) would make `.split` raise; that case is not modelled.
- Cache file I/O is not modelled: the existence check, `open`, JSON (de)serialisation and `os.makedirs`. `OnPreBuild` takes the loaded document, if any, and `OnPostBuild` returns the document it would write. A malformed cache file aborts the build in the source; that case is not modelled.
- Timing (`timer`, `total_time`), logging and the unused `authors` dictionary are not modelled.
- Plugin.GitCommittersPlugin.ListContributors: requires a configured URL base. When `on_config` has not set up the repository, the source raises `AttributeError` at its first line of work. `OnPageContext` models that outcome.
- The HTML-scraping blame variant is not part of this model: it is not in the plugin code.
