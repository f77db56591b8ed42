/**
 * The URL decisions of the main process: the rewrite applied before a
 * navigation loads, the user agent chosen for the destination, the pattern
 * that keeps a new-window request inside the application, and the pattern
 * that extracts a video id from a livestreaming page.
 */
module UrlPolicy {
  import opened Wrappers
  import opened Text

  // ---------------------------------------------------------------------------
  // Navigation rewrite
  // ---------------------------------------------------------------------------

  /** The site's home page, where sign-in ends up. */
  const SignInHome := "https://www.youtube.com/"
  /** Where the application starts. */
  const StudioHome := "https://studio.youtube.com/"
  /** Marker of the page a rejected sign-in lands on. */
  const RejectedMarker := "https://accounts.google.com/signin/rejected"

  /**
   * The URL the navigation handler loads instead of `url`: the exact home
   * page and any URL carrying the rejected-sign-in marker go to the studio
   * home; everything else is kept.
   */
  function Rewrite(url: string): (r: string)
    ensures r == (if url == SignInHome || Occurs(url, RejectedMarker) then StudioHome else url)
  {
    var u := if url == SignInHome then StudioHome else url;
    if IndexOf(u, RejectedMarker) >= 0 then StudioHome else u
  }

  /** Rewriting an already rewritten URL changes nothing more. */
  lemma RewriteIsIdempotent(url: string)
    ensures Rewrite(Rewrite(url)) == Rewrite(url)
  {
    assert !Occurs(StudioHome, RejectedMarker);
  }

  /** Only the exact home page is rewritten by the first rule: a longer URL under it is kept. */
  lemma ExtendedHomeIsKept()
    ensures Rewrite("https://www.youtube.com/x") == "https://www.youtube.com/x"
  {
    assert !Occurs("https://www.youtube.com/x", RejectedMarker);
  }

  // ---------------------------------------------------------------------------
  // User agent
  // ---------------------------------------------------------------------------

  /** The desktop browser identity the site gets. */
  const DesktopUserAgent := "Mozilla/5.0 (Windows NT 10.0; Win64; x64) AppleWebKit/537.36 (KHTML, like Gecko) Chrome/84.0.4147.125 Safari/537.36"
  /** The identity every other site gets. */
  const FallbackUserAgent := "Chrome"
  const StudioPrefix := "https://studio."
  const WwwPrefix := "https://www."

  /** The user agent set before loading `url`: chosen by the URL's prefix. */
  function UserAgentFor(url: string): (ua: string)
    ensures ua == (if StudioPrefix <= url || WwwPrefix <= url then DesktopUserAgent else FallbackUserAgent)
  {
    IndexOfIsZeroIffPrefix(url, StudioPrefix);
    IndexOfIsZeroIffPrefix(url, WwwPrefix);
    if IndexOf(url, StudioPrefix) == 0 || IndexOf(url, WwwPrefix) == 0 then DesktopUserAgent
    else FallbackUserAgent
  }

  /** A navigation rewritten to the studio home always loads with the desktop identity. */
  lemma RewrittenNavigationGetsDesktopAgent(url: string)
    requires url == SignInHome || Occurs(url, RejectedMarker)
    ensures UserAgentFor(Rewrite(url)) == DesktopUserAgent
  {
    assert StudioPrefix <= StudioHome;
  }

  // ---------------------------------------------------------------------------
  // New-window gate: /^https?:\/\/(studio|www)\.youtube.com/
  // ---------------------------------------------------------------------------

  /** The characters a regular-expression `.` does not match (no `s` flag). */
  predicate IsLineTerminator(c: char)
  {
    c == '\n' || c == '\r' || c == '\U{2028}' || c == '\U{2029}'
  }

  function Scheme(secure: bool): string
  {
    if secure then "https://" else "http://"
  }

  function Host(studio: bool): string
  {
    if studio then "studio" else "www"
  }

  function OriginTail(any: char): string
  {
    ".youtube" + [any] + "com"
  }

  /**
   * The words of the new-window pattern: an optional `s` after `http`, one
   * of two hosts, and any single character where `.com` has its dot (the
   * pattern leaves that dot unescaped).
   */
  function OriginPatternWord(secure: bool, studio: bool, any: char): string
  {
    Scheme(secure) + (Host(studio) + OriginTail(any))
  }

  /** The pattern is anchored at the start only: it matches when some word of it begins `url`. */
  ghost predicate MatchesOriginPattern(url: string)
  {
    exists secure: bool, studio: bool, any: char ::
      !IsLineTerminator(any) && OriginPatternWord(secure, studio, any) <= url
  }

  function AfterScheme(url: string): Option<string>
  {
    if "https://" <= url then Some(url[8..])
    else if "http://" <= url then Some(url[7..])
    else None
  }

  function AfterHost(rest: string): Option<string>
  {
    if "studio" <= rest then Some(rest[6..])
    else if "www" <= rest then Some(rest[3..])
    else None
  }

  predicate IsOriginTail(rest: string)
  {
    |rest| >= 12 && rest[..8] == ".youtube" && !IsLineTerminator(rest[8]) && rest[9..12] == "com"
  }

  /** The pattern's `test(url)`, reading the URL left to right. */
  function TestOrigin(url: string): bool
  {
    match AfterScheme(url)
    case None => false
    case Some(rest) =>
      match AfterHost(rest)
      case None => false
      case Some(tail) => IsOriginTail(tail)
  }

  /** `a + b` begins `s` exactly when `a` begins `s` and `b` begins what follows it. */
  lemma PrefixOfConcat(a: string, b: string, s: string)
    ensures a + b <= s <==> a <= s && b <= s[|a|..]
  {
    if a <= s && b <= s[|a|..] {
      assert s[..|a| + |b|] == a + b;
    }
    if a + b <= s {
      assert s[..|a|] == (a + b)[..|a|];
      assert s[|a|..][..|b|] == (a + b)[|a|..];
    }
  }

  /** Which scheme the recognizer strips. */
  lemma AfterSchemeOf(url: string, secure: bool)
    requires Scheme(secure) <= url
    ensures AfterScheme(url) == Some(url[|Scheme(secure)|..])
  {
    if !secure {
      assert url[4] == ':';
    }
  }

  /** Which host the recognizer strips. */
  lemma AfterHostOf(rest: string, studio: bool)
    requires Host(studio) <= rest
    ensures AfterHost(rest) == Some(rest[|Host(studio)|..])
  {
    if !studio {
      assert rest[0] == 'w';
    }
  }

  /** What the recognizer strips as the scheme begins the URL. */
  lemma SchemeStripped(url: string)
    requires AfterScheme(url).Some?
    ensures var secure := "https://" <= url;
            Scheme(secure) <= url && AfterScheme(url).value == url[|Scheme(secure)|..]
  {
  }

  /** What the recognizer strips as the host begins the text after the scheme. */
  lemma HostStripped(rest: string)
    requires AfterHost(rest).Some?
    ensures var studio := "studio" <= rest;
            Host(studio) <= rest && AfterHost(rest).value == rest[|Host(studio)|..]
  {
  }

  /** An accepted tail begins with the pattern's tail for its ninth character. */
  lemma OriginTailOf(tail: string)
    requires IsOriginTail(tail)
    ensures OriginTail(tail[8]) <= tail
  {
    assert tail[..12] == tail[..8] + [tail[8]] + tail[9..12];
  }

  /** A URL the recognizer accepts begins with a word of the pattern. */
  lemma TestOriginSound(url: string)
    requires TestOrigin(url)
    ensures MatchesOriginPattern(url)
  {
    SchemeStripped(url);
    var secure := "https://" <= url;
    var rest := AfterScheme(url).value;
    HostStripped(rest);
    var studio := "studio" <= rest;
    var tail := AfterHost(rest).value;
    OriginTailOf(tail);
    PrefixOfConcat(Host(studio), OriginTail(tail[8]), rest);
    PrefixOfConcat(Scheme(secure), Host(studio) + OriginTail(tail[8]), url);
    assert !IsLineTerminator(tail[8]) && OriginPatternWord(secure, studio, tail[8]) <= url;
  }

  /** The text after the host is accepted when it begins with the pattern's tail. */
  lemma OriginTailAccepted(tail: string, any: char)
    requires !IsLineTerminator(any) && OriginTail(any) <= tail
    ensures IsOriginTail(tail)
  {
    assert tail[..12] == OriginTail(any);
    assert tail[..8] == tail[..12][..8];
    assert tail[9..12] == tail[..12][9..12];
  }

  /** A URL that begins with the word chosen by `secure`, `studio` and `any` is accepted by the recognizer. */
  lemma TestOriginComplete(url: string, secure: bool, studio: bool, any: char)
    requires !IsLineTerminator(any) && OriginPatternWord(secure, studio, any) <= url
    ensures TestOrigin(url)
  {
    PrefixOfConcat(Scheme(secure), Host(studio) + OriginTail(any), url);
    var rest := url[|Scheme(secure)|..];
    AfterSchemeOf(url, secure);
    PrefixOfConcat(Host(studio), OriginTail(any), rest);
    AfterHostOf(rest, studio);
    OriginTailAccepted(rest[|Host(studio)|..], any);
  }

  /** The recognizer accepts exactly the URLs the pattern matches. */
  lemma TestOriginMatchesPattern(url: string)
    ensures TestOrigin(url) <==> MatchesOriginPattern(url)
  {
    if TestOrigin(url) {
      TestOriginSound(url);
    }
    if MatchesOriginPattern(url) {
      var secure: bool, studio: bool, any: char :|
        !IsLineTerminator(any) && OriginPatternWord(secure, studio, any) <= url;
      TestOriginComplete(url, secure, studio, any);
    }
  }

  // ---------------------------------------------------------------------------
  // Video id: /https:\/\/studio\.youtube\.com\/video\/(\w+)\/livestreaming/
  // ---------------------------------------------------------------------------

  const VideoPrefix := "https://studio.youtube.com/video/"
  const VideoSuffix := "/livestreaming"

  /** The `\w` class: ASCII letters, digits and underscore. */
  predicate IsWordChar(c: char)
  {
    'a' <= c <= 'z' || 'A' <= c <= 'Z' || '0' <= c <= '9' || c == '_'
  }

  /**
   * The pattern matches `s` at index `p` with an `n`-character capture:
   * the prefix at `p`, `n >= 1` word characters, then the suffix.
   */
  ghost predicate VideoMatchAt(s: string, p: int, n: int)
  {
    var q := p + |VideoPrefix|;
    OccursAt(s, VideoPrefix, p) && 1 <= n && q + n <= |s|
    && (forall k :: q <= k < q + n ==> IsWordChar(s[k]))
    && OccursAt(s, VideoSuffix, q + n)
  }

  /** The match `exec` reports: the leftmost one. */
  ghost predicate IsFirstVideoMatch(s: string, p: int, n: int)
  {
    VideoMatchAt(s, p, n) && forall q, m :: q < p ==> !VideoMatchAt(s, q, m)
  }

  /** The length of the run of word characters in `s` that starts at `j` (the greedy `\w+`). */
  function WordRun(s: string, j: nat): (n: nat)
    requires j <= |s|
    ensures j + n <= |s|
    ensures forall k :: j <= k < j + n ==> IsWordChar(s[k])
    ensures j + n == |s| || !IsWordChar(s[j + n])
    decreases |s| - j
  {
    if j < |s| && IsWordChar(s[j]) then 1 + WordRun(s, j + 1) else 0
  }

  /** Every run of word characters starting at `j` fits in the greedy run. */
  lemma {:induction false} WordRunIsMaximal(s: string, j: nat, n: nat)
    requires j + n <= |s|
    requires forall k :: j <= k < j + n ==> IsWordChar(s[k])
    ensures n <= WordRun(s, j)
    decreases n
  {
    if n > 0 {
      assert IsWordChar(s[j]);
      WordRunIsMaximal(s, j + 1, n - 1);
    }
  }

  /**
   * At a given index the capture is the whole run of word characters:
   * the suffix starts with `/`, which `\w` does not match, so no shorter or
   * longer capture can be followed by it.
   */
  lemma VideoMatchIsGreedy(s: string, p: int, n: int)
    requires VideoMatchAt(s, p, n)
    ensures n == WordRun(s, p + |VideoPrefix|)
  {
    var q := p + |VideoPrefix|;
    var m := WordRun(s, q);
    assert s[q + n] == s[q + n..q + n + |VideoSuffix|][0] == '/';
    WordRunIsMaximal(s, q, n);
  }

  /** Where the greedy capture is not followed by the suffix, the pattern does not match. */
  lemma NoVideoMatchAt(s: string, k: nat)
    requires k + |VideoPrefix| <= |s|
    requires var n := WordRun(s, k + |VideoPrefix|);
             !(OccursAt(s, VideoPrefix, k) && 1 <= n && OccursAt(s, VideoSuffix, k + |VideoPrefix| + n))
    ensures forall m :: !VideoMatchAt(s, k, m)
  {
    forall m | VideoMatchAt(s, k, m) ensures m == WordRun(s, k + |VideoPrefix|) {
      VideoMatchIsGreedy(s, k, m);
    }
  }

  /** The pattern matches at most once per start index, and its first match is unique. */
  lemma FirstVideoMatchIsUnique(s: string, p: int, n: int, p': int, n': int)
    requires IsFirstVideoMatch(s, p, n) && IsFirstVideoMatch(s, p', n')
    ensures p == p' && n == n'
  {
    if p == p' {
      VideoMatchIsGreedy(s, p, n);
      VideoMatchIsGreedy(s, p', n');
    }
  }

  /** The scan of `exec` from index `k`: the first index where the pattern matches, with its capture length. */
  function VideoExecFrom(s: string, k: nat): (r: Option<(nat, nat)>)
    ensures r.None? ==> forall p, n :: k <= p ==> !VideoMatchAt(s, p, n)
    ensures r.Some? ==> k <= r.value.0 && VideoMatchAt(s, r.value.0, r.value.1)
    ensures r.Some? ==> forall p, n :: k <= p < r.value.0 ==> !VideoMatchAt(s, p, n)
    decreases |s| - k
  {
    if k + |VideoPrefix| > |s| then None
    else
      var n := WordRun(s, k + |VideoPrefix|);
      if OccursAt(s, VideoPrefix, k) && 1 <= n && OccursAt(s, VideoSuffix, k + |VideoPrefix| + n) then
        Some((k, n))
      else
        NoVideoMatchAt(s, k);
        VideoExecFrom(s, k + 1)
  }

  /** `videoIdParseRegExp.exec(s)`: null, or the index of the first match and the capture's length. */
  function VideoExec(s: string): (r: Option<(nat, nat)>)
    ensures r.None? <==> forall p, n :: !VideoMatchAt(s, p, n)
    ensures r.Some? ==> IsFirstVideoMatch(s, r.value.0, r.value.1)
  {
    VideoExecFrom(s, 0)
  }

  /**
   * The video id of `s`: null when the livestreaming pattern does not occur;
   * otherwise a non-empty run of word characters, the capture of the first match.
   */
  function VideoIdOf(s: string): (r: Option<string>)
    ensures r.None? <==> forall p, n :: !VideoMatchAt(s, p, n)
    ensures r.Some? ==> 1 <= |r.value| && forall k :: 0 <= k < |r.value| ==> IsWordChar(r.value[k])
    ensures r.Some? ==> exists p :: IsFirstVideoMatch(s, p, |r.value|)
                                    && r.value == s[p + |VideoPrefix|..p + |VideoPrefix| + |r.value|]
  {
    match VideoExec(s)
    case None => None
    case Some((p, n)) =>
      var id := s[p + |VideoPrefix|..p + |VideoPrefix| + n];
      assert IsFirstVideoMatch(s, p, |id|);
      Some(id)
  }

  /** The livestreaming page of any video id yields that id. */
  lemma VideoIdOfLivestreamingPage(id: string)
    requires 1 <= |id| && forall k :: 0 <= k < |id| ==> IsWordChar(id[k])
    ensures VideoIdOf(VideoPrefix + id + VideoSuffix) == Some(id)
  {
    var s := VideoPrefix + id + VideoSuffix;
    var L := |VideoPrefix|;
    assert s[..L] == VideoPrefix;
    assert s[L + |id|..L + |id| + |VideoSuffix|] == VideoSuffix;
    assert s[L..L + |id|] == id;
    assert VideoMatchAt(s, 0, |id|);
    var r := VideoIdOf(s);
    var p :| IsFirstVideoMatch(s, p, |r.value|) && r.value == s[p + L..p + L + |r.value|];
    FirstVideoMatchIsUnique(s, 0, |id|, p, |r.value|);
  }

  /** The livestreaming page of video `abc123` yields the id `abc123`. */
  lemma VideoIdOfExamplePage()
    ensures VideoIdOf("https://studio.youtube.com/video/abc123/livestreaming") == Some("abc123")
  {
    assert "https://studio.youtube.com/video/abc123/livestreaming" == VideoPrefix + "abc123" + VideoSuffix;
    VideoIdOfLivestreamingPage("abc123");
  }
}
