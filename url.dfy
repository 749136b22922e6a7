/** The owner and repository `describeGithubProject` reads off a URL with
    `/github.com\/(.+?)\/(.+?)(?:\.|\/|$)/`: no flags, so the match is the
    leftmost one, each `.` (the one in `github.com` included) is any
    character but a line terminator, both groups are lazy, and `$` is the end
    of the text. */
module RepoUrl {
  import opened Wrappers
  import opened Text

  /** The literal part `github.com/` matches at `p`, its `.` being any
      character but a line terminator. */
  predicate HostAt(s: string, p: nat)
  {
    && p + 11 <= |s|
    && s[p] == 'g' && s[p + 1] == 'i' && s[p + 2] == 't' && s[p + 3] == 'h' && s[p + 4] == 'u' && s[p + 5] == 'b'
    && !IsLineTerminator(s[p + 6])
    && s[p + 7] == 'c' && s[p + 8] == 'o' && s[p + 9] == 'm' && s[p + 10] == '/'
  }

  /** The end of the shortest second group starting at `b` that is followed
      by `.`, `/` or the end of the text. */
  function RepoEnd(s: string, b: nat): (e: Option<nat>)
    ensures e.Some? ==> b < e.value <= |s|
  {
    if b >= |s| || IsLineTerminator(s[b]) then None else RepoEndFrom(s, b, b + 1)
  }

  /** The search of `RepoEnd` after the second group's first character. */
  function RepoEndFrom(s: string, b: nat, j: nat): (e: Option<nat>)
    requires b < j
    ensures e.Some? ==> j <= e.value <= |s|
    decreases |s| - j
  {
    if j >= |s| then (if j == |s| then Some(j) else None)
    else if s[j] == '.' || s[j] == '/' then Some(j)
    else if IsLineTerminator(s[j]) then None
    else RepoEndFrom(s, b, j + 1)
  }

  /** The shortest first group starting at `a` and ending before `j` or
      later, for which a `/` and a second group follow. The result is the
      index of that `/` and the end of the second group. */
  function OwnerFrom(s: string, a: nat, j: nat): (r: Option<(nat, nat)>)
    requires a < j
    ensures r.Some? ==> j <= r.value.0 && r.value.0 + 1 < r.value.1 <= |s|
    decreases |s| - j
  {
    if j >= |s| then None
    else if s[j] == '/' && RepoEnd(s, j + 1).Some? then Some((j, RepoEnd(s, j + 1).value))
    else if IsLineTerminator(s[j]) then None
    else OwnerFrom(s, a, j + 1)
  }

  /** The match starting at `p`, if any, as (slash index, repository end). */
  function MatchAt(s: string, p: nat): (r: Option<(nat, nat)>)
    ensures r.Some? ==> HostAt(s, p) && p + 11 < r.value.0
  {
    if HostAt(s, p) && p + 11 < |s| && !IsLineTerminator(s[p + 11]) then OwnerFrom(s, p + 11, p + 12) else None
  }

  /** The leftmost match at `p` or later. */
  function MatchFrom(s: string, p: nat): (r: Option<(nat, nat, nat)>)
    ensures r.Some? ==> p <= r.value.0 && HostAt(s, r.value.0) && r.value.0 + 11 < r.value.1
                        && r.value.1 + 1 < r.value.2 <= |s|
    decreases |s| - p
  {
    if p >= |s| then None
    else match MatchAt(s, p)
      case Some((slash, end)) => Some((p, slash, end))
      case None => MatchFrom(s, p + 1)
  }

  /** `repoUrl.match(...)`: the owner (`match[1]`) and the repository
      (`match[2]`), or `None` for no match. */
  function ParseRepoUrl(url: string): Option<(string, string)>
  {
    match MatchFrom(url, 0)
    case None => None
    case Some((p, slash, end)) => Some((url[p + 11..slash], url[slash + 1..end]))
  }

  /** `repoUrl.replace(/\.git$/, '')`: one trailing `.git` removed. */
  function StripGitSuffix(url: string): (r: string)
    ensures url == r || url == r + ".git"
    ensures r != url <==> |url| >= 4 && url[|url| - 4..] == ".git"
  {
    if |url| >= 4 && url[|url| - 4..] == ".git" then url[..|url| - 4] else url
  }

  lemma RepoEndFromShape(s: string, b: nat, j: nat)
    requires b < j
    requires RepoEndFrom(s, b, j).Some?
    ensures var e := RepoEndFrom(s, b, j).value;
            (e == |s| || s[e] == '.' || s[e] == '/')
            && forall k :: j <= k < e ==> s[k] != '.' && s[k] != '/' && !IsLineTerminator(s[k])
    decreases |s| - j
  {
    if j < |s| && !(s[j] == '.' || s[j] == '/') && !IsLineTerminator(s[j]) {
      RepoEndFromShape(s, b, j + 1);
    }
  }

  lemma {:induction false} OwnerFromShape(s: string, a: nat, j: nat)
    requires a < j
    requires OwnerFrom(s, a, j).Some?
    ensures var (slash, end) := OwnerFrom(s, a, j).value;
            s[slash] == '/' && RepoEnd(s, slash + 1) == Some(end)
            && (forall k :: j <= k < slash ==> !IsLineTerminator(s[k]))
            && (forall k :: j <= k < slash ==> !(s[k] == '/' && RepoEnd(s, k + 1).Some?))
    decreases |s| - j
  {
    if !(s[j] == '/' && RepoEnd(s, j + 1).Some?) {
      OwnerFromShape(s, a, j + 1);
    }
  }

  /** `owner` and `repo` sit at `p` as the pattern places them: after
      `github`, one more character and `com/`, separated by `/`, the
      repository followed by `.`, `/` or the end of the URL. */
  predicate GroupsAt(url: string, p: nat, owner: string, repo: string)
  {
    && HostAt(url, p) && p + 12 + |owner| + |repo| <= |url|
    && url[p + 11..p + 11 + |owner|] == owner
    && url[p + 11 + |owner|] == '/'
    && url[p + 12 + |owner|..p + 12 + |owner| + |repo|] == repo
    && (p + 12 + |owner| + |repo| == |url| || url[p + 12 + |owner| + |repo|] == '.' || url[p + 12 + |owner| + |repo|] == '/')
  }

  /** Both groups are non-empty and free of line terminators, and the
      repository holds no `.` or `/` after its first character. */
  predicate CleanGroups(owner: string, repo: string)
  {
    && owner != [] && repo != []
    && (forall k :: 0 <= k < |owner| ==> !IsLineTerminator(owner[k]))
    && (forall k :: 0 <= k < |repo| ==> !IsLineTerminator(repo[k]))
    && (forall k :: 1 <= k < |repo| ==> repo[k] != '.' && repo[k] != '/')
  }

  /** `owner` and `repo` are the groups of some way the pattern can match
      at `p`. */
  predicate MatchesAt(url: string, p: nat, owner: string, repo: string)
  {
    GroupsAt(url, p, owner, repo) && CleanGroups(owner, repo)
  }

  /** The match the pattern reports: at the leftmost position where it can
      match, with the shortest owner there (the first group is lazy). */
  ghost predicate FirstMatch(url: string, p: nat, owner: string, repo: string)
  {
    && MatchesAt(url, p, owner, repo)
    && (forall q: nat, o, r :: q < p ==> !MatchesAt(url, q, o, r))
    && (forall o, r :: |o| < |owner| ==> !MatchesAt(url, p, o, r))
  }

  /** What a match guarantees: its groups are those of the leftmost match
      with the shortest owner. */
  lemma ParsedShape(url: string)
    requires ParseRepoUrl(url).Some?
    ensures exists p: nat :: FirstMatch(url, p, ParseRepoUrl(url).value.0, ParseRepoUrl(url).value.1)
  {
    var (p, slash, end) := MatchFrom(url, 0).value;
    MatchFromAt(url, 0);
    MatchGroups(url, p, slash, end);
    NoEarlierFit(url, p);
    NoShorterOwner(url, p, slash, end);
    assert FirstMatch(url, p, url[p + 11..slash], url[slash + 1..end]);
  }

  /** Where no match starts, the pattern fits with no groups. */
  lemma NoEarlierFit(url: string, p: nat)
    requires forall q :: 0 <= q < p ==> MatchAt(url, q).None?
    ensures forall q: nat, o, r :: q < p ==> !MatchesAt(url, q, o, r)
  {
    forall q: nat, o, r | q < p ensures !MatchesAt(url, q, o, r) {
      if MatchesAt(url, q, o, r) {
        MatchesAtMatch(url, q, o, r);
      }
    }
  }

  /** The owner of a match is the shortest that fits at its position. */
  lemma NoShorterOwner(url: string, p: nat, slash: nat, end: nat)
    requires MatchAt(url, p) == Some((slash, end))
    ensures forall o, r :: |o| < slash - (p + 11) ==> !MatchesAt(url, p, o, r)
  {
    OwnerFromShape(url, p + 11, p + 12);
    forall o, r | |o| < slash - (p + 11) ensures !MatchesAt(url, p, o, r) {
      if MatchesAt(url, p, o, r) {
        MatchesAtMatch(url, p, o, r);
      }
    }
  }

  /** Whenever the pattern can match somewhere, `ParseRepoUrl` finds a match. */
  lemma MatchesParsed(url: string, p: nat, owner: string, repo: string)
    requires MatchesAt(url, p, owner, repo)
    ensures ParseRepoUrl(url).Some?
  {
    MatchesAtMatch(url, p, owner, repo);
    MatchFromFinds(url, 0, p);
  }

  /** There is no match exactly when the pattern cannot match anywhere. */
  lemma ParseRepoUrlNone(url: string)
    ensures ParseRepoUrl(url).None? <==> forall p: nat, o, r :: !MatchesAt(url, p, o, r)
  {
    if ParseRepoUrl(url).Some? {
      ParsedShape(url);
    } else {
      forall p: nat, o, r ensures !MatchesAt(url, p, o, r) {
        if MatchesAt(url, p, o, r) {
          MatchesParsed(url, p, o, r);
        }
      }
    }
  }

  /** `ParseRepoUrl` returns exactly the groups of the leftmost match with
      the shortest owner. */
  lemma ParseRepoUrlExactly(url: string, owner: string, repo: string)
    ensures ParseRepoUrl(url) == Some((owner, repo)) <==> exists p: nat :: FirstMatch(url, p, owner, repo)
  {
    if p: nat :| FirstMatch(url, p, owner, repo) {
      MatchesParsed(url, p, owner, repo);
      ParsedShape(url);
      var v := ParseRepoUrl(url).value;
      var p' :| FirstMatch(url, p', v.0, v.1);
      FirstMatchUnique(url, p, owner, repo, p', v.0, v.1);
    } else if ParseRepoUrl(url).Some? {
      ParsedShape(url);
    }
  }

  /** At most one match is the first. */
  lemma FirstMatchUnique(url: string, p: nat, o: string, r: string, p': nat, o': string, r': string)
    requires FirstMatch(url, p, o, r) && FirstMatch(url, p', o', r')
    ensures o == o' && r == r'
  {
    assert p == p' && |o| == |o'|;
    assert |r| == |r'|;
  }

  /** Groups the pattern can match at `p` make `MatchAt` succeed there, with
      the `/` after the owner no later than theirs. */
  lemma MatchesAtMatch(url: string, p: nat, owner: string, repo: string)
    requires MatchesAt(url, p, owner, repo)
    ensures MatchAt(url, p).Some? && MatchAt(url, p).value.0 <= p + 11 + |owner|
    ensures RepoEnd(url, p + 12 + |owner|) == Some(p + 12 + |owner| + |repo|)
  {
    var a := p + 11;
    var slash := a + |owner|;
    var b := slash + 1;
    var e := b + |repo|;
    assert url[a] == url[a..slash][0];
    forall k | a <= k < slash ensures !IsLineTerminator(url[k]) {
      assert url[k] == url[a..slash][k - a];
    }
    assert url[b] == url[b..e][0];
    forall k | b + 1 <= k < e ensures url[k] != '.' && url[k] != '/' && !IsLineTerminator(url[k]) {
      assert url[k] == url[b..e][k - b];
    }
    RepoEndFromReaches(url, b, b + 1, e);
    OwnerFromReaches(url, a, a + 1, slash);
  }

  /** The second group's search reaches the first `.`, `/` or end of text
      when nothing before it stops the search. */
  lemma {:induction false} RepoEndFromReaches(s: string, b: nat, j: nat, e: nat)
    requires b < j <= e <= |s|
    requires forall k :: j <= k < e ==> s[k] != '.' && s[k] != '/' && !IsLineTerminator(s[k])
    requires e == |s| || s[e] == '.' || s[e] == '/'
    ensures RepoEndFrom(s, b, j) == Some(e)
    decreases e - j
  {
    if j < e {
      RepoEndFromReaches(s, b, j + 1, e);
    }
  }

  /** The first group's search succeeds no later than a `/` followed by a
      second group, when no line terminator comes first. */
  lemma {:induction false} OwnerFromReaches(s: string, a: nat, j: nat, slash: nat)
    requires a < j <= slash < |s|
    requires s[slash] == '/' && RepoEnd(s, slash + 1).Some?
    requires forall k :: j <= k < slash ==> !IsLineTerminator(s[k])
    ensures OwnerFrom(s, a, j).Some? && OwnerFrom(s, a, j).value.0 <= slash
    decreases slash - j
  {
    if j < slash && !(s[j] == '/' && RepoEnd(s, j + 1).Some?) {
      OwnerFromReaches(s, a, j + 1, slash);
    }
  }

  /** The leftmost-match search from `q` finds something when there is a
      match at `p` or later. */
  lemma {:induction false} MatchFromFinds(s: string, q: nat, p: nat)
    requires q <= p && MatchAt(s, p).Some?
    ensures MatchFrom(s, q).Some?
    decreases p - q
  {
    if q < p && MatchAt(s, q).None? {
      MatchFromFinds(s, q + 1, p);
    }
  }

  /** The groups of a match at `p` sit where the pattern places them, and
      they are clean. */
  lemma MatchGroups(url: string, p: nat, slash: nat, end: nat)
    requires MatchAt(url, p) == Some((slash, end))
    ensures p + 11 <= slash < end <= |url|
    ensures GroupsAt(url, p, url[p + 11..slash], url[slash + 1..end])
    ensures CleanGroups(url[p + 11..slash], url[slash + 1..end])
  {
    MatchParts(url, p, slash, end);
    OwnerChars(url, p + 11, slash);
    RepoChars(url, slash + 1, end);
  }

  /** The pieces of a match at `p`: the host, the `/` after the owner and
      the end of the repository. */
  lemma MatchParts(url: string, p: nat, slash: nat, end: nat)
    requires MatchAt(url, p) == Some((slash, end))
    ensures HostAt(url, p) && p + 11 < slash && slash + 1 < end <= |url|
    ensures url[slash] == '/' && (end == |url| || url[end] == '.' || url[end] == '/')
    ensures forall k :: p + 12 <= k < slash ==> !IsLineTerminator(url[k])
    ensures !IsLineTerminator(url[p + 11])
    ensures !IsLineTerminator(url[slash + 1])
    ensures forall k :: slash + 2 <= k < end ==> url[k] != '.' && url[k] != '/' && !IsLineTerminator(url[k])
  {
    OwnerFromShape(url, p + 11, p + 12);
    RepoEndFromShape(url, slash + 1, slash + 2);
  }

  /** The owner group holds no line terminator. */
  lemma OwnerChars(url: string, a: nat, slash: nat)
    requires a < slash <= |url|
    requires forall k :: a <= k < slash ==> !IsLineTerminator(url[k])
    ensures forall k :: 0 <= k < |url[a..slash]| ==> !IsLineTerminator(url[a..slash][k])
  {
    forall k | 0 <= k < |url[a..slash]| ensures !IsLineTerminator(url[a..slash][k]) {
      assert url[a..slash][k] == url[a + k];
    }
  }

  /** The repository group holds no line terminator, and no `.` or `/`
      after its first character. */
  lemma RepoChars(url: string, b: nat, end: nat)
    requires b < end <= |url|
    requires forall k :: b <= k < end ==> !IsLineTerminator(url[k])
    requires forall k :: b + 1 <= k < end ==> url[k] != '.' && url[k] != '/'
    ensures forall k :: 0 <= k < |url[b..end]| ==> !IsLineTerminator(url[b..end][k])
    ensures forall k :: 1 <= k < |url[b..end]| ==> url[b..end][k] != '.' && url[b..end][k] != '/'
  {
    forall k | 0 <= k < |url[b..end]| ensures url[b..end][k] == url[b + k] { }
  }

  /** The leftmost match is a match. */
  lemma {:induction false} MatchFromAt(s: string, p: nat)
    requires MatchFrom(s, p).Some?
    ensures MatchAt(s, MatchFrom(s, p).value.0) == Some((MatchFrom(s, p).value.1, MatchFrom(s, p).value.2))
    ensures forall q :: p <= q < MatchFrom(s, p).value.0 ==> MatchAt(s, q).None?
    decreases |s| - p
  {
    if MatchAt(s, p).None? {
      MatchFromAt(s, p + 1);
    }
  }

  /** A URL in which `github` does not occur has no match. */
  lemma {:induction false} NoGithubNoMatch(s: string, p: nat)
    requires !Contains(s, "github")
    ensures MatchFrom(s, p).None?
    decreases |s| - p
  {
    if p < |s| {
      if HostAt(s, p) {
        assert s[p..p + 6] == "github";
        assert OccursAt(s, "github", p);
      }
      NoGithubNoMatch(s, p + 1);
    }
  }

  /** The path of a GitHub web page after the repository is ignored. */
  lemma ParseTreeUrl()
    ensures ParseRepoUrl("https://github.com/acme/widgets/tree/main") == Some(("acme", "widgets"))
  {
    var s := "https://github.com/acme/widgets/tree/main";
    ExampleMatch(s);
    ExampleGroups(s);
  }

  /** The repository group stops at the first `.`, so a `.git` suffix is
      not part of it. */
  lemma ParseGitUrl()
    ensures ParseRepoUrl("https://github.com/acme/widgets.git") == Some(("acme", "widgets"))
  {
    var s := "https://github.com/acme/widgets.git";
    ExampleMatch(s);
    ExampleGroups(s);
  }

  /** Both examples start with `https://github.com/acme/widgets` followed by
      `/` or `.`. */
  predicate ExampleShape(s: string)
  {
    |s| > 31 && s[..31] == "https://github.com/acme/widgets" && (s[31] == '/' || s[31] == '.')
  }

  lemma ExampleRepoEnd(s: string)
    requires ExampleShape(s)
    ensures RepoEnd(s, 24) == Some(31)
  {
    assert s[24] == 'w' && s[25] == 'i' && s[26] == 'd' && s[27] == 'g' && s[28] == 'e' && s[29] == 't' && s[30] == 's';
    assert RepoEndFrom(s, 24, 31) == Some(31);
    assert RepoEndFrom(s, 24, 29) == Some(31);
    assert RepoEndFrom(s, 24, 27) == Some(31);
    assert RepoEndFrom(s, 24, 25) == Some(31);
  }

  lemma ExampleOwner(s: string)
    requires ExampleShape(s)
    ensures OwnerFrom(s, 19, 20) == Some((23, 31))
  {
    ExampleRepoEnd(s);
    assert s[19] == 'a' && s[20] == 'c' && s[21] == 'm' && s[22] == 'e' && s[23] == '/';
    assert OwnerFrom(s, 19, 23) == Some((23, 31));
    assert OwnerFrom(s, 19, 21) == Some((23, 31));
  }

  lemma ExampleMatch(s: string)
    requires ExampleShape(s)
    ensures MatchFrom(s, 0) == Some((8, 23, 31))
  {
    ExampleHost(s);
    assert MatchFrom(s, 7) == Some((8, 23, 31));
    assert MatchFrom(s, 6) == Some((8, 23, 31));
    assert MatchFrom(s, 4) == Some((8, 23, 31));
    assert MatchFrom(s, 2) == Some((8, 23, 31));
  }

  /** The only match of the examples starts at 8: none of the first eight
      positions starts `github`. */
  lemma ExampleHost(s: string)
    requires ExampleShape(s)
    ensures MatchAt(s, 8) == Some((23, 31))
    ensures forall q :: 0 <= q < 8 ==> MatchAt(s, q).None?
  {
    ExampleOwner(s);
    ExampleNoEarlierHost(s);
    assert s[8] == 'g' && s[9] == 'i' && s[10] == 't' && s[11] == 'h' && s[12] == 'u' && s[13] == 'b' && s[14] == '.';
    assert s[15] == 'c' && s[16] == 'o' && s[17] == 'm' && s[18] == '/' && s[19] == 'a';
    assert HostAt(s, 8);
  }

  lemma ExampleNoEarlierHost(s: string)
    requires ExampleShape(s)
    ensures forall q :: 0 <= q < 8 ==> !HostAt(s, q)
  {
    assert s[0] == 'h' && s[1] == 't' && s[2] == 't' && s[3] == 'p';
    assert s[4] == 's' && s[5] == ':' && s[6] == '/' && s[7] == '/';
    forall q | 0 <= q < 8 ensures s[q] != 'g' { }
  }

  lemma ExampleGroups(s: string)
    requires ExampleShape(s)
    ensures s[19..23] == "acme" && s[24..31] == "widgets"
  {
    assert s[19..23] == s[..31][19..23];
    assert s[24..31] == s[..31][24..31];
  }
}
