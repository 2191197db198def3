/** What a project card on the dashboard shows (components/project-card.tsx):
    the repository path, the live link, the state badge, the avatar and the
    date line. */
module ProjectCard {
  import opened Wrappers
  import opened Text
  import opened Types

  const GithubPrefix: string := "https://github.com/"
  const GithubWwwPrefix: string := "https://www.github.com/"
  const LiveHostSuffix: string := ".nikhilsaiankilla.blog/"
  const DefaultAvatar: string := "/logo.png"
  const DefaultBadge: string := "not started"

  /** `gitUrl.replace(/^https:\/\/(www\.)?github\.com\//, '')`: the pattern is
      anchored and not global, so at most one leading GitHub prefix goes. */
  function StripGithubPrefix(url: string): (r: string)
    ensures StartsWith(url, GithubPrefix) ==> GithubPrefix + r == url
    ensures StartsWith(url, GithubWwwPrefix) ==> GithubWwwPrefix + r == url
    ensures !StartsWith(url, GithubPrefix) && !StartsWith(url, GithubWwwPrefix) ==> r == url
  {
    PrefixesExclusive(url);
    if StartsWith(url, GithubWwwPrefix) then url[|GithubWwwPrefix|..]
    else if StartsWith(url, GithubPrefix) then url[|GithubPrefix|..]
    else url
  }

  /** The two prefixes exclude each other, so exactly one rule applies. */
  lemma PrefixesExclusive(url: string)
    ensures !(StartsWith(url, GithubPrefix) && StartsWith(url, GithubWwwPrefix))
  {
    if |url| >= |GithubWwwPrefix| {
      assert GithubPrefix[8] != GithubWwwPrefix[8];
    }
  }

  /** Only the leading occurrence is removed. */
  lemma OnlyLeadingPrefix()
    ensures StripGithubPrefix("https://github.com/https://github.com/a") == "https://github.com/a"
  {
    var url := "https://github.com/https://github.com/a";
    assert url[..|GithubPrefix|] == GithubPrefix;
    assert url[11] != GithubWwwPrefix[11];
  }

  /** A URL of another scheme is shown as it is. */
  lemma PlainHttpUnchanged()
    ensures StripGithubPrefix("http://github.com/a") == "http://github.com/a"
  {
    var url := "http://github.com/a";
    assert url[4] != GithubPrefix[4] && url[4] != GithubWwwPrefix[4];
  }

  /** The project's live address, `https://<subDomain>.nikhilsaiankilla.blog/`. */
  function LiveUrl(subDomain: string): (r: string)
    ensures StartsWith(r, "https://") && |r| == |subDomain| + 8 + |LiveHostSuffix|
    ensures r[8..8 + |subDomain|] == subDomain
  {
    "https://" + subDomain + LiveHostSuffix
  }

  /** Distinct projects get distinct live links. */
  lemma LiveUrlInjective(a: string, b: string)
    requires LiveUrl(a) == LiveUrl(b)
    ensures a == b
  {
    FramedInjective("https://", a, b, LiveHostSuffix);
  }

  /** The badge's type: `latestState || "not started"`; every state name is
      non-empty, so only a missing state falls back. */
  function BadgeType(latestState: Option<DeploymentState>): (r: string)
    ensures latestState.Some? ==> r == StateName(latestState.value)
    ensures latestState.None? ==> r == DefaultBadge
  {
    if latestState.Some? && StateName(latestState.value) != [] then StateName(latestState.value) else DefaultBadge
  }

  /** A project without a state is shown exactly like one not started. */
  lemma MissingStateLooksNotStarted()
    ensures BadgeType(None) == BadgeType(Some(NotStarted))
  {
  }

  /** `favicon ? favicon : "/logo.png"`: an empty favicon also falls back. */
  function AvatarSrc(favicon: Option<string>): (r: string)
    ensures r != []
    ensures favicon.Some? && favicon.value != [] ==> r == favicon.value
    ensures favicon.None? || favicon.value == [] ==> r == DefaultAvatar
  {
    if favicon.Some? && favicon.value != [] then favicon.value else DefaultAvatar
  }

  /** The date line: "Updated At" with the formatted update time, or
      "Created At" with the raw creation string. Date formatting is not
      modelled; `UpdatedAt` carries the raw value to be formatted. */
  datatype DateLine = UpdatedAt(updatedAt: string) | CreatedAt(createdAt: string)

  function DateLineOf(updatedAt: Option<string>, createdAt: string): (d: DateLine)
    ensures d.UpdatedAt? <==> updatedAt.Some? && updatedAt.value != []
    ensures d.UpdatedAt? ==> d.updatedAt == updatedAt.value
    ensures d.CreatedAt? ==> d.createdAt == createdAt
  {
    if updatedAt.Some? && updatedAt.value != [] then UpdatedAt(updatedAt.value) else CreatedAt(createdAt)
  }
}
