/**
 * The author records `list_contributors` builds: manual authors from a page's
 * `authors` front matter and blame authors from the GitHub GraphQL blame
 * ranges of the file.
 */
module Authors {
  import opened Wrappers

  /** Base of every avatar URL built for a manual author. */
  const AvatarBaseUrl: string := "https://avatars.githubusercontent.com/"

  /** One entry of the `committers` list: `{login, name, url, avatar}`. */
  datatype Author = Author(login: string, name: string, url: string, avatar: string)

  /** The `user` of a blame range's commit author: `{login, name, avatarUrl}`. */
  datatype User = User(login: string, name: string, avatarUrl: string)

  /** The record made for one comma-separated piece of the `authors` metadata. */
  function ManualAuthor(githubUrl: string, username: string): Author
  {
    Author(username, username, githubUrl + username, AvatarBaseUrl + username)
  }

  /** The record made for the user of a blame range. */
  function BlameAuthor(githubUrl: string, u: User): Author
  {
    Author(u.login, u.name, githubUrl + u.login, u.avatarUrl)
  }

  /** `any(x['login'] == login for x in authors)` */
  predicate HasLogin(authors: seq<Author>, login: string)
  {
    exists i :: 0 <= i < |authors| && authors[i].login == login
  }

  /** No login occurs twice. */
  predicate DistinctLogins(authors: seq<Author>)
  {
    forall i, j :: 0 <= i < j < |authors| ==> authors[i].login != authors[j].login
  }

  /**
   * Builds the manual author list, one entry per piece in declared order,
   * with no trimming and no deduplication.
   */
  method BuildManualAuthors(githubUrl: string, usernames: seq<string>) returns (manual: seq<Author>)
    ensures |manual| == |usernames|
    ensures forall i :: 0 <= i < |usernames| ==>
      && manual[i].login == usernames[i]
      && manual[i].name == usernames[i]
      && manual[i].url == githubUrl + usernames[i]
      && manual[i].avatar == AvatarBaseUrl + usernames[i]
  {
    manual := [];
    for k := 0 to |usernames|
      invariant |manual| == k
      invariant forall i :: 0 <= i < k ==> manual[i] == ManualAuthor(githubUrl, usernames[i])
    {
      manual := manual + [ManualAuthor(githubUrl, usernames[k])];
    }
  }

  /**
   * The blame author list before sorting, after the loop has seen `ranges`:
   * a range whose user is null is skipped, and a user is appended only if
   * its login is neither already collected nor a manual login.
   */
  function Collect(githubUrl: string, ranges: seq<Option<User>>, manual: seq<Author>): seq<Author>
    decreases |ranges|
  {
    if ranges == [] then []
    else
      var prev := Collect(githubUrl, ranges[..|ranges| - 1], manual);
      match ranges[|ranges| - 1]
      case None => prev
      case Some(u) =>
        if HasLogin(prev, u.login) || HasLogin(manual, u.login) then prev
        else prev + [BlameAuthor(githubUrl, u)]
  }

  /**
   * The loop over the blame ranges: the result is exactly `Collect` of all
   * the ranges.
   */
  method CollectBlameAuthors(githubUrl: string, ranges: seq<Option<User>>, manual: seq<Author>)
    returns (blame: seq<Author>)
    ensures blame == Collect(githubUrl, ranges, manual)
  {
    blame := [];
    for k := 0 to |ranges|
      invariant blame == Collect(githubUrl, ranges[..k], manual)
    {
      assert ranges[..k + 1][..k] == ranges[..k];
      var user := ranges[k];
      if user.None? {
        continue;
      }
      var login := user.value.login;
      if !HasLogin(blame, login) && !HasLogin(manual, login) {
        blame := blame + [BlameAuthor(githubUrl, user.value)];
      }
    }
    assert ranges[..|ranges|] == ranges;
  }

  /**
   * Reference definition: the user of the first range whose user has the
   * given login, scanning from the first range.
   */
  function FirstUser(ranges: seq<Option<User>>, login: string): (r: Option<User>)
    ensures r.Some? ==> r.value.login == login
    ensures r.Some? ==>
      exists k :: 0 <= k < |ranges| && ranges[k] == r
        && forall j :: 0 <= j < k ==> ranges[j].None? || ranges[j].value.login != login
    ensures r.None? <==> forall k :: 0 <= k < |ranges| && ranges[k].Some? ==> ranges[k].value.login != login
    decreases |ranges|
  {
    if ranges == [] then None
    else if ranges[0].Some? && ranges[0].value.login == login then ranges[0]
    else
      var r := FirstUser(ranges[1..], login);
      assert forall k :: 1 <= k < |ranges| ==> ranges[k] == ranges[1..][k - 1];
      assert r.Some? ==> var k :| 0 <= k < |ranges[1..]| && ranges[1..][k] == r
        && (forall j :: 0 <= j < k ==> ranges[1..][j].None? || ranges[1..][j].value.login != login);
        ranges[k + 1] == r && forall j :: 0 <= j < k + 1 ==> ranges[j].None? || ranges[j].value.login != login;
      r
  }

  /** Appending a range can only set `FirstUser` where it was still unset. */
  lemma {:induction false} FirstUserAppend(ranges: seq<Option<User>>, x: Option<User>, login: string)
    ensures FirstUser(ranges + [x], login) ==
      if FirstUser(ranges, login).Some? then FirstUser(ranges, login)
      else if x.Some? && x.value.login == login then x
      else None
    decreases |ranges|
  {
    if ranges != [] {
      assert (ranges + [x])[1..] == ranges[1..] + [x];
      FirstUserAppend(ranges[1..], x, login);
    } else {
      assert ([] + [x])[1..] == [];
    }
  }

  /** Every login occurs at most once among the blame authors. */
  lemma {:induction false} CollectDistinct(githubUrl: string, ranges: seq<Option<User>>, manual: seq<Author>)
    ensures DistinctLogins(Collect(githubUrl, ranges, manual))
    decreases |ranges|
  {
    if ranges != [] {
      CollectDistinct(githubUrl, ranges[..|ranges| - 1], manual);
    }
  }

  /** No blame author has the login of a manual author. */
  lemma {:induction false} CollectAvoidsManual(githubUrl: string, ranges: seq<Option<User>>, manual: seq<Author>)
    ensures forall i :: 0 <= i < |Collect(githubUrl, ranges, manual)| ==>
      !HasLogin(manual, Collect(githubUrl, ranges, manual)[i].login)
    decreases |ranges|
  {
    if ranges != [] {
      CollectAvoidsManual(githubUrl, ranges[..|ranges| - 1], manual);
    }
  }

  /**
   * Every login found in the ranges and not declared manually is among the
   * blame authors.
   */
  lemma {:induction false} CollectComplete(githubUrl: string, ranges: seq<Option<User>>, manual: seq<Author>, login: string)
    requires FirstUser(ranges, login).Some?
    requires !HasLogin(manual, login)
    ensures HasLogin(Collect(githubUrl, ranges, manual), login)
    decreases |ranges|
  {
    var prefix, last := ranges[..|ranges| - 1], ranges[|ranges| - 1];
    assert ranges == prefix + [last];
    FirstUserAppend(prefix, last, login);
    var prev := Collect(githubUrl, prefix, manual);
    if FirstUser(prefix, login).Some? {
      CollectComplete(githubUrl, prefix, manual, login);
      var i :| 0 <= i < |prev| && prev[i].login == login;
      assert Collect(githubUrl, ranges, manual)[i] == prev[i];
    } else if !HasLogin(prev, login) {
      assert Collect(githubUrl, ranges, manual) == prev + [BlameAuthor(githubUrl, last.value)];
      assert Collect(githubUrl, ranges, manual)[|prev|].login == login;
    }
  }

  /**
   * Each blame author is built from the first range carrying its login: when
   * ranges repeat a login, the first range's name and avatar win.
   */
  lemma {:induction false} CollectFirstRangeWins(githubUrl: string, ranges: seq<Option<User>>, manual: seq<Author>)
    ensures forall i :: 0 <= i < |Collect(githubUrl, ranges, manual)| ==>
      var a := Collect(githubUrl, ranges, manual)[i];
      FirstUser(ranges, a.login).Some? && a == BlameAuthor(githubUrl, FirstUser(ranges, a.login).value)
    decreases |ranges|
  {
    if ranges != [] {
      var prefix, last := ranges[..|ranges| - 1], ranges[|ranges| - 1];
      assert ranges == prefix + [last];
      var prev := Collect(githubUrl, prefix, manual);
      CollectFirstRangeWins(githubUrl, prefix, manual);
      var c := Collect(githubUrl, ranges, manual);
      forall i | 0 <= i < |c|
        ensures FirstUser(ranges, c[i].login).Some? && c[i] == BlameAuthor(githubUrl, FirstUser(ranges, c[i].login).value)
      {
        FirstUserAppend(prefix, last, c[i].login);
        if i == |prev| {
          var u := last.value;
          assert c[i] == BlameAuthor(githubUrl, u) && !HasLogin(prev, u.login) && !HasLogin(manual, u.login);
          if FirstUser(prefix, u.login).Some? {
            CollectComplete(githubUrl, prefix, manual, u.login);
          }
        } else {
          assert c[i] == prev[i];
        }
      }
    }
  }
}
