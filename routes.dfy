/** The path patterns of the forum API. The browser replica matches paths
    relative to the API base (`/topics`, `/^\/topics\/([^/]+)\/posts$/`,
    `/^\/topics\/([^/]+)\/posts\/([^/]+)\/replies$/`); the file-backed server
    matches the same shapes under `/api`, without the replies route. */
module Routes {
  import opened Text

  datatype Verb = GET | POST | OPTIONS | OtherVerb

  datatype Route =
    | TopicsRoute
    | PostsRoute(slugSegment: string)
    | RepliesRoute(slugSegment: string, postSegment: string)
    | NoRoute

  /** A `([^/]+)` capture: non-empty and free of slashes. */
  predicate IsSegment(s: string) {
    s != [] && forall k :: 0 <= k < |s| ==> s[k] != '/'
  }

  /** Index of the first '/' in `s`, or `|s|` when there is none. */
  function SlashIndex(s: string): (i: nat)
    ensures i <= |s|
    ensures i < |s| ==> s[i] == '/'
    ensures forall k :: 0 <= k < i ==> s[k] != '/'
  {
    if s == [] || s[0] == '/' then 0 else 1 + SlashIndex(s[1..])
  }

  const TopicsPath := "/topics"
  const TopicsPrefix := "/topics/"
  const PostsSuffix := "/posts"
  const PostsInfix := "/posts/"
  const RepliesSuffix := "/replies"

  /** The route a path (relative to the API base) selects. */
  function ParseRoute(path: string): (r: Route)
    ensures r.PostsRoute? ==> IsSegment(r.slugSegment)
    ensures r.RepliesRoute? ==> IsSegment(r.slugSegment) && IsSegment(r.postSegment)
  {
    if path == TopicsPath then TopicsRoute
    else if StartsWith(path, TopicsPrefix) then ParseTopicTail(path[|TopicsPrefix|..])
    else NoRoute
  }

  /** What follows `/topics/`: a slug segment, then the rest of the path. */
  function ParseTopicTail(rest: string): (r: Route)
    ensures r.PostsRoute? ==> IsSegment(r.slugSegment)
    ensures r.RepliesRoute? ==> IsSegment(r.slugSegment) && IsSegment(r.postSegment)
  {
    var i := SlashIndex(rest);
    if i == 0 || i == |rest| then NoRoute else ParseAfterSlug(rest[..i], rest[i..])
  }

  function ParseAfterSlug(slugSegment: string, tail: string): (r: Route)
    requires IsSegment(slugSegment)
    ensures r.PostsRoute? ==> r.slugSegment == slugSegment
    ensures r.RepliesRoute? ==> r.slugSegment == slugSegment && IsSegment(r.postSegment)
  {
    if tail == PostsSuffix then PostsRoute(slugSegment)
    else if StartsWith(tail, PostsInfix) then ParseReplies(slugSegment, tail[|PostsInfix|..])
    else NoRoute
  }

  /** What follows `/posts/`: a post segment and exactly `/replies`. */
  function ParseReplies(slugSegment: string, rest: string): (r: Route)
    requires IsSegment(slugSegment)
    ensures r.RepliesRoute? ==> r.slugSegment == slugSegment && IsSegment(r.postSegment)
    ensures !r.PostsRoute? && !r.TopicsRoute?
  {
    var j := SlashIndex(rest);
    if j == 0 || j == |rest| || rest[j..] != RepliesSuffix then NoRoute
    else RepliesRoute(slugSegment, rest[..j])
  }

  /** The path that a client builds for a route. */
  function RoutePath(r: Route): string
    requires !r.NoRoute?
  {
    match r
    case TopicsRoute => TopicsPath
    case PostsRoute(s) => TopicsPrefix + s + PostsSuffix
    case RepliesRoute(s, p) => TopicsPrefix + s + PostsInfix + p + RepliesSuffix
  }

  predicate WellFormedRoute(r: Route) {
    match r
    case TopicsRoute => true
    case PostsRoute(s) => IsSegment(s)
    case RepliesRoute(s, p) => IsSegment(s) && IsSegment(p)
    case NoRoute => false
  }

  lemma SlashIndexOfSegment(seg: string, tail: string)
    requires IsSegment(seg) && tail != [] && tail[0] == '/'
    ensures SlashIndex(seg + tail) == |seg|
    decreases |seg|
  {
    var s := seg + tail;
    assert s[0] == seg[0] && s[0] != '/';
    if |seg| > 1 {
      assert s[1..] == seg[1..] + tail;
      SlashIndexOfSegment(seg[1..], tail);
    } else {
      assert s[1..] == tail;
    }
  }

  lemma ParseTopicTailOf(seg: string, tail: string)
    requires IsSegment(seg) && tail != [] && tail[0] == '/'
    ensures ParseTopicTail(seg + tail) == ParseAfterSlug(seg, tail)
  {
    SlashIndexOfSegment(seg, tail);
    assert (seg + tail)[..|seg|] == seg;
    assert (seg + tail)[|seg|..] == tail;
  }

  lemma ParseRepliesOf(seg: string, p: string)
    requires IsSegment(seg) && IsSegment(p)
    ensures ParseReplies(seg, p + RepliesSuffix) == RepliesRoute(seg, p)
  {
    SlashIndexOfSegment(p, RepliesSuffix);
    assert (p + RepliesSuffix)[..|p|] == p;
    assert (p + RepliesSuffix)[|p|..] == RepliesSuffix;
  }

  lemma ParseRouteOfPrefixed(rest: string)
    ensures ParseRoute(TopicsPrefix + rest) == ParseTopicTail(rest)
  {
    var path := TopicsPrefix + rest;
    assert path != TopicsPath by { assert |path| == |TopicsPrefix| + |rest| > |TopicsPath|; }
    assert path[..|TopicsPrefix|] == TopicsPrefix;
    assert path[|TopicsPrefix|..] == rest;
  }

  lemma PostsRoutePath(s: string)
    requires IsSegment(s)
    ensures ParseRoute(TopicsPrefix + s + PostsSuffix) == PostsRoute(s)
  {
    assert TopicsPrefix + s + PostsSuffix == TopicsPrefix + (s + PostsSuffix);
    ParseRouteOfPrefixed(s + PostsSuffix);
    ParseTopicTailOf(s, PostsSuffix);
  }

  lemma RepliesRoutePath(s: string, p: string)
    requires IsSegment(s) && IsSegment(p)
    ensures ParseRoute(TopicsPrefix + s + PostsInfix + p + RepliesSuffix) == RepliesRoute(s, p)
  {
    var tail := PostsInfix + p + RepliesSuffix;
    assert TopicsPrefix + s + PostsInfix + p + RepliesSuffix == TopicsPrefix + (s + tail);
    ParseRouteOfPrefixed(s + tail);
    ParseTopicTailOf(s, tail);
    AfterSlugOfReplies(s, p);
  }

  lemma AfterSlugOfReplies(s: string, p: string)
    requires IsSegment(s) && IsSegment(p)
    ensures ParseAfterSlug(s, PostsInfix + p + RepliesSuffix) == RepliesRoute(s, p)
  {
    var tail := PostsInfix + p + RepliesSuffix;
    assert tail != PostsSuffix by { assert |tail| > |PostsSuffix|; }
    assert tail[..|PostsInfix|] == PostsInfix;
    assert tail[|PostsInfix|..] == p + RepliesSuffix;
    ParseRepliesOf(s, p);
  }

  /** Every well-formed route is recognised from the path built for it. */
  lemma ParseRoutePath(r: Route)
    requires WellFormedRoute(r)
    ensures ParseRoute(RoutePath(r)) == r
  {
    match r
    case TopicsRoute =>
    case PostsRoute(s) => PostsRoutePath(s);
    case RepliesRoute(s, p) => RepliesRoutePath(s, p);
  }

  lemma RepliesPathOf(seg: string, rest: string)
    requires IsSegment(seg) && ParseReplies(seg, rest).RepliesRoute?
    ensures rest == ParseReplies(seg, rest).postSegment + RepliesSuffix
  {
    var j := SlashIndex(rest);
    assert rest == rest[..j] + rest[j..];
  }

  lemma AfterSlugPathOf(seg: string, tail: string)
    requires IsSegment(seg) && !ParseAfterSlug(seg, tail).NoRoute?
    ensures RoutePath(ParseAfterSlug(seg, tail)) == TopicsPrefix + seg + tail
  {
    if tail != PostsSuffix {
      var rest2 := tail[|PostsInfix|..];
      assert tail == PostsInfix + rest2;
      RepliesPathOf(seg, rest2);
    }
  }

  lemma TopicTailPathOf(rest: string)
    requires !ParseTopicTail(rest).NoRoute?
    ensures RoutePath(ParseTopicTail(rest)) == TopicsPrefix + rest
  {
    var i := SlashIndex(rest);
    var seg, tail := rest[..i], rest[i..];
    assert IsSegment(seg);
    AfterSlugPathOf(seg, tail);
    JoinAfterPrefix(seg, tail, rest);
  }

  lemma JoinAfterPrefix(seg: string, tail: string, rest: string)
    requires seg + tail == rest
    ensures TopicsPrefix + seg + tail == TopicsPrefix + rest
  {
  }

  /** ... and a path is recognised only when it is the path of its route. */
  lemma ParsedPathIsRoutePath(path: string)
    requires !ParseRoute(path).NoRoute?
    ensures RoutePath(ParseRoute(path)) == path
  {
    if path != TopicsPath {
      var rest := path[|TopicsPrefix|..];
      assert path == TopicsPrefix + rest;
      TopicTailPathOf(rest);
    }
  }
}
