/**
 * `parseRepositoryUrl` of Puc_v4_GitHub_UpdateChecker: from the configured
 * repository URL to the owner and repository names the release lookup uses.
 */
module RepositoryUrl {
  import opened Base

  function LowerAscii(c: char): char {
    if 'A' <= c <= 'Z' then (c as int + 32) as char else c
  }

  /** `s` holds `w` at position `at`, ignoring ASCII case (the `i` flag). */
  predicate MatchesCI(s: string, at: nat, w: string) {
    at + |w| <= |s| && forall k :: 0 <= k < |w| ==> LowerAscii(s[at + k]) == LowerAscii(w[k])
  }

  /** `c` fits the pattern character `p`: an unescaped '.' takes any character but a newline. */
  predicate CharFits(c: char, p: char) {
    if p == '.' then c != '\n' else LowerAscii(c) == LowerAscii(p)
  }

  /** `s` starts with a match of the dot-pattern `p`, ignoring ASCII case. */
  predicate PatternAt(s: string, p: string) {
    |p| <= |s| && forall k :: 0 <= k < |p| ==> CharFits(s[k], p[k])
  }

  /** The two texts `!^https?://github.com/!i` can match. */
  const HttpsHost := "https://github.com/"
  const HttpHost := "http://github.com/"

  /**
   * Length of the match of `!^https?://github.com/!i` at the start of `s`,
   * found as the regex engine finds it: "http", then the optional "s" taken
   * greedily, "://github", any character but a newline, "com/".
   */
  function GitHubPrefixLength(s: string): (n: Option<nat>)
    ensures n.Some? ==> n.value <= |s| && (n.value == 18 || n.value == 19)
    ensures n == Some(19) <==> PatternAt(s, HttpsHost)
    ensures n == Some(18) <==> PatternAt(s, HttpHost)
    ensures n.None? <==> !PatternAt(s, HttpsHost) && !PatternAt(s, HttpHost)
  {
    HttpsPiecesMatch(s);
    HttpPiecesMatch(s);
    if !MatchesCI(s, 0, "http") then None
    else
      var m := if |s| > 4 && LowerAscii(s[4]) == 's' then 5 else 4;
      if MatchesCI(s, m, "://github") && m + 9 < |s| && s[m + 9] != '\n' && MatchesCI(s, m + 10, "com/")
      then Some(m + 14)
      else None
  }

  /** The regex's prefix is removed when present; otherwise the URL is kept whole. */
  function StripGitHubPrefix(s: string): (r: string)
    ensures |r| <= |s| && r == s[|s| - |r|..]
    ensures PatternAt(s, HttpsHost) ==> r == s[19..]
    ensures PatternAt(s, HttpHost) ==> r == s[18..]
    ensures !PatternAt(s, HttpsHost) && !PatternAt(s, HttpHost) ==> r == s
  {
    match GitHubPrefixLength(s)
    case None => s
    case Some(n) => s[n..]
  }

  lemma HttpsHostShape()
    ensures HttpsHost[..4] == "http" && HttpsHost[4] == 's' && HttpsHost[5..14] == "://github"
    ensures HttpsHost[14] == '.' && HttpsHost[15..19] == "com/" && |HttpsHost| == 19
  {
  }

  lemma HttpHostShape()
    ensures HttpHost[..4] == "http" && HttpHost[4..13] == "://github"
    ensures HttpHost[13] == '.' && HttpHost[14..18] == "com/" && |HttpHost| == 18
  {
  }

  /** A dot-free stretch `w` of the pattern, at `a`, is matched literally (ignoring case). */
  lemma LiteralStretch(s: string, p: string, a: nat, w: string)
    requires |p| <= |s| && a + |w| <= |p| && p[a..a + |w|] == w && '.' !in w
    ensures MatchesCI(s, a, w) <==> forall k :: a <= k < a + |w| ==> CharFits(s[k], p[k])
  {
    if MatchesCI(s, a, w) {
      forall k | a <= k < a + |w| ensures CharFits(s[k], p[k]) {
        assert p[k] == w[k - a] && w[k - a] in w;
      }
    }
    if forall k :: a <= k < a + |w| ==> CharFits(s[k], p[k]) {
      forall k | 0 <= k < |w| ensures LowerAscii(s[a + k]) == LowerAscii(w[k]) {
        assert p[a + k] == w[k] && w[k] in w;
        assert CharFits(s[a + k], p[a + k]);
      }
    }
  }

  /** The https alternative, piece by piece as the matcher checks it. */
  predicate HttpsPieces(s: string) {
    MatchesCI(s, 0, "http") && |s| > 4 && LowerAscii(s[4]) == 's' && MatchesCI(s, 5, "://github")
    && 14 < |s| && s[14] != '\n' && MatchesCI(s, 15, "com/")
  }

  /** The http alternative, piece by piece. */
  predicate HttpPieces(s: string) {
    MatchesCI(s, 0, "http") && MatchesCI(s, 4, "://github") && 13 < |s| && s[13] != '\n' && MatchesCI(s, 14, "com/")
  }

  lemma HttpsPiecesMatch(s: string)
    ensures PatternAt(s, HttpsHost) <==> HttpsPieces(s)
  {
    var p := HttpsHost;
    if |s| >= |p| {
      HttpsHostShape();
      LiteralStretch(s, p, 0, "http");
      LiteralStretch(s, p, 5, "://github");
      LiteralStretch(s, p, 15, "com/");
      if HttpsPieces(s) {
        forall k | 0 <= k < |p| ensures CharFits(s[k], p[k]) {
          if k < 4 {} else if k == 4 {} else if k < 14 {} else if k == 14 {} else {}
        }
      }
    }
  }

  lemma HttpPiecesMatch(s: string)
    ensures PatternAt(s, HttpHost) <==> HttpPieces(s)
  {
    var p := HttpHost;
    if |s| >= |p| {
      HttpHostShape();
      LiteralStretch(s, p, 0, "http");
      LiteralStretch(s, p, 4, "://github");
      LiteralStretch(s, p, 14, "com/");
      if HttpPieces(s) {
        forall k | 0 <= k < |p| ensures CharFits(s[k], p[k]) {
          if k < 4 {} else if k < 13 {} else if k == 13 {} else {}
        }
      }
    }
  }

  /**
   * `preg_replace('/\.git$/', '', $r)`: removes ".git" at the very end, or
   * just before a final newline, which `$` also matches.
   */
  function StripGitSuffix(r: string): (t: string)
    ensures !EndsWith(r, ".git") && !EndsWith(r, ".git\n") ==> t == r
    ensures EndsWith(r, ".git") ==> t + ".git" == r
    ensures EndsWith(r, ".git\n") ==> t == r[..|r| - 5] + "\n"
  {
    if EndsWith(r, ".git") then
      assert r[|r| - 1] == r[|r| - 4..][3] == 't';
      r[..|r| - 4]
    else if EndsWith(r, ".git\n") then r[..|r| - 5] + "\n"
    else r
  }

  /** Owner and repository names; both start out empty. */
  datatype Coords = Coords(username: string, repository: string)

  /**
   * `parseRepositoryUrl` as the constructor runs it: on a URL with fewer
   * than two '/'-separated parts the names keep their empty defaults.
   */
  function ParseRepositoryUrl(url: string): (c: Coords)
    ensures '/' !in c.username && '/' !in c.repository
    ensures |Explode(StripGitHubPrefix(url), '/')| < 2 ==> c == Coords("", "")
  {
    var parts := Explode(StripGitHubPrefix(url), '/');
    if |parts| >= 2 then Coords(parts[0], StripGitSuffix(parts[1])) else Coords("", "")
  }

  lemma OwnerRepoParts(user: string, repo: string, rest: string)
    requires '/' !in user && '/' !in repo
    ensures Explode(user + "/" + repo, '/') == [user, repo]
    ensures var ps := Explode(user + "/" + repo + "/" + rest, '/');
      |ps| >= 2 && ps[0] == user && ps[1] == repo
  {
    ExplodeJoin([user, repo], '/');
    assert Join([user, repo], '/') == user + "/" + repo;
    ExplodePrefix(user, repo + "/" + rest, '/');
    ExplodePrefix(repo, rest, '/');
    assert user + "/" + repo + "/" + rest == user + ['/'] + (repo + ['/'] + rest);
  }

  /** Any spelling of either scheme and host the regex accepts is removed, whatever follows it. */
  lemma StripsScheme(scheme: string, tail: string)
    requires KnownScheme(scheme)
    ensures StripGitHubPrefix(scheme + tail) == tail
  {
    var s := scheme + tail;
    var p := if |scheme| == |HttpsHost| && PatternAt(scheme, HttpsHost) then HttpsHost else HttpHost;
    assert PatternAt(s, p) by {
      forall k | 0 <= k < |p| ensures CharFits(s[k], p[k]) {
        assert s[k] == scheme[k];
      }
    }
    assert s[|scheme|..] == tail;
  }

  /** A repository name that does not end in ".git" (and has no newline) is left alone. */
  lemma StripGitSuffixKeeps(repo: string)
    requires '\n' !in repo && !EndsWith(repo, ".git")
    ensures StripGitSuffix(repo) == repo
    ensures StripGitSuffix(repo + ".git") == repo
  {
    if |repo| >= 5 {
      assert repo[|repo| - 1] in repo;
    }
    var g := repo + ".git";
    assert g[|g| - 4..] == ".git";
    assert g[..|g| - 4] == repo;
  }

  /** Once the prefix is gone, the first two '/'-separated parts are owner and repository. */
  lemma ParseFromParts(url: string, user: string, repo: string)
    requires var ps := Explode(StripGitHubPrefix(url), '/'); |ps| >= 2 && ps[0] == user && ps[1] == repo
    ensures ParseRepositoryUrl(url) == Coords(user, StripGitSuffix(repo))
  {
  }

  /** A scheme and host the regex removes in full: either scheme, any letter case, any host separator. */
  predicate KnownScheme(scheme: string) {
    (|scheme| == |HttpsHost| && PatternAt(scheme, HttpsHost)) || (|scheme| == |HttpHost| && PatternAt(scheme, HttpHost))
  }

  /** A repository URL, or a bare "owner/repo", names exactly that owner and repository. */
  lemma ParseRepositoryUrlRoundTrip(scheme: string, user: string, repo: string)
    requires KnownScheme(scheme)
    requires '/' !in user && '/' !in repo && '\n' !in repo && !EndsWith(repo, ".git")
    ensures ParseRepositoryUrl(scheme + (user + "/" + repo)) == Coords(user, repo)
    ensures !PatternAt(user + "/" + repo, HttpsHost) && !PatternAt(user + "/" + repo, HttpHost) ==>
      ParseRepositoryUrl(user + "/" + repo) == Coords(user, repo)
  {
    StripGitSuffixKeeps(repo);
    ParseOwnerRepo(scheme, user, repo);
    var plain := user + "/" + repo;
    if !PatternAt(plain, HttpsHost) && !PatternAt(plain, HttpHost) {
      OwnerRepoParts(user, repo, "");
      ParseFromParts(plain, user, repo);
    }
  }

  /** Whatever follows the scheme, its first two parts are owner and repository, ".git" stripped. */
  lemma ParseOwnerRepo(scheme: string, user: string, repo: string)
    requires KnownScheme(scheme)
    requires '/' !in user && '/' !in repo
    ensures ParseRepositoryUrl(scheme + (user + "/" + repo)) == Coords(user, StripGitSuffix(repo))
  {
    var plain := user + "/" + repo;
    OwnerRepoParts(user, repo, "");
    StripsScheme(scheme, plain);
    ParseFromParts(scheme + plain, user, repo);
  }

  lemma NoSlashInDotGit(repo: string)
    requires '/' !in repo
    ensures '/' !in repo + ".git"
  {
    var g := repo + ".git";
    assert forall k :: 0 <= k < |g| ==> g[k] == (if k < |repo| then repo[k] else ".git"[k - |repo|]);
  }

  /** A trailing ".git" on the repository is dropped. */
  lemma ParseRepositoryUrlDropsGitSuffix(scheme: string, user: string, repo: string)
    requires KnownScheme(scheme)
    requires '/' !in user && '/' !in repo && '\n' !in repo && !EndsWith(repo, ".git")
    ensures ParseRepositoryUrl(scheme + (user + "/" + (repo + ".git"))) == Coords(user, repo)
  {
    StripGitSuffixKeeps(repo);
    NoSlashInDotGit(repo);
    ParseOwnerRepo(scheme, user, repo + ".git");
  }

  /** Path segments after the repository (a branch view, say) are ignored. */
  lemma ParseRepositoryUrlIgnoresDeeperPath(scheme: string, user: string, repo: string, rest: string)
    requires KnownScheme(scheme)
    requires '/' !in user && '/' !in repo && '\n' !in repo && !EndsWith(repo, ".git")
    ensures ParseRepositoryUrl(scheme + (user + "/" + repo + "/" + rest)) == Coords(user, repo)
  {
    StripGitSuffixKeeps(repo);
    ParseDeeperPath(scheme, user + "/" + repo + "/" + rest, user, repo, rest);
  }

  lemma ParseDeeperPath(scheme: string, longer: string, user: string, repo: string, rest: string)
    requires KnownScheme(scheme)
    requires '/' !in user && '/' !in repo && longer == user + "/" + repo + "/" + rest
    ensures ParseRepositoryUrl(scheme + longer) == Coords(user, StripGitSuffix(repo))
  {
    OwnerRepoParts(user, repo, rest);
    StripsScheme(scheme, longer);
    ParseFromParts(scheme + longer, user, repo);
  }

  /** A '.' stands for any character in the host, so a look-alike host is stripped too; a newline there is not. */
  lemma HostDotMatchesAnyCharacter()
    ensures ParseRepositoryUrl("https://githubXcom/o/r") == Coords("o", "r")
    ensures ParseRepositoryUrl("https://github\ncom/o/r") == Coords("https:", "")
  {
    LookAlikeHostStripped();
    OwnerRepoParts("o", "r", "");
    ParseFromParts("https://githubXcom/o/r", "o", "r");
    NewlineHostNotStripped();
  }

  lemma NewlineHostNotStripped()
    ensures ParseRepositoryUrl("https://github\ncom/o/r") == Coords("https:", "")
  {
    var s := "https://github\ncom/o/r";
    assert s[..6] == "https:";
    assert s[6] == '/';
    assert s[7] == '/';
    NewlineHostKept();
    UnstrippedSchemeIsOwner(s, "https:");
  }

  /** Left in place, a scheme "x://" splits into the owner "x:" and an empty repository. */
  lemma UnstrippedSchemeIsOwner(s: string, a: string)
    requires |s| >= |a| + 2 && s[..|a|] == a && s[|a|] == '/' && s[|a| + 1] == '/'
    requires '/' !in a && StripGitHubPrefix(s) == s
    ensures ParseRepositoryUrl(s) == Coords(a, "")
  {
    var c := s[|a| + 2..];
    assert s == a + ['/'] + ("" + ['/'] + c);
    ExplodePrefix(a, "" + ['/'] + c, '/');
    ExplodePrefix("", c, '/');
    ParseFromParts(s, a, "");
  }

  lemma LookAlikeHostStripped()
    ensures StripGitHubPrefix("https://githubXcom/o/r") == "o/r"
  {
    var s := "https://githubXcom/o/r";
    LookAlikePieces();
    HttpsPiecesMatch(s);
    assert s[19..] == "o/r";
  }

  lemma LookAlikePieces()
    ensures HttpsPieces("https://githubXcom/o/r")
  {
    var s := "https://githubXcom/o/r";
    assert MatchesCI(s, 0, "http");
    assert MatchesCI(s, 5, "://github");
    assert MatchesCI(s, 15, "com/");
  }

  lemma NewlineHostKept()
    ensures StripGitHubPrefix("https://github\ncom/o/r") == "https://github\ncom/o/r"
  {
    var s := "https://github\ncom/o/r";
    assert s[14] == '\n';
  }
}
