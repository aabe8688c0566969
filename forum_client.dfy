/** The browser's forum client (script.js): the list of API bases it may use, the
    base it settles on after a health probe, and `forumApi`, which tries the bases in
    turn and falls back to the offline replica when none answers with success.
    The network is two oracles: `health(base)` is what `isForumApiAvailable(base)`
    resolves to, and `remote(base)` is the answer a request to that base gets. */
module ForumClient {
  import opened Text
  import opened ForumModel
  import opened Routes
  import opened LocalForum

  const LocalBase := "http://localhost:8787/api"
  const ApiSuffix := "/api"
  const FallbackNotice := "Online forum is unavailable. Using local forum mode on this device."

  /** `s.replace(/\/+$/, '')` */
  function StripTrailingSlashes(s: string): (r: string)
    ensures |r| <= |s| && r == s[..|r|]
    ensures r == [] || r[|r| - 1] != '/'
    ensures forall k :: |r| <= k < |s| ==> s[k] == '/'
  {
    if s != [] && s[|s| - 1] == '/' then StripTrailingSlashes(s[..|s| - 1]) else s
  }

  /** The bases in the order they are pushed: the stored base (`""` when the key is
      missing), then the page origin's `/api` when the page is served over http(s)
      (`origin` is `None` otherwise), then the local development server. */
  function PushedCandidates(configured: string, origin: Option<string>): seq<string> {
    (if configured != [] then [StripTrailingSlashes(configured)] else [])
    + (if origin.Some? then [StripTrailingSlashes(origin.value) + ApiSuffix] else [])
    + [LocalBase]
  }

  /** `list.filter(Boolean)` */
  function NonEmpty(s: seq<string>): (r: seq<string>)
    ensures forall x :: x in r <==> x in s && x != []
  {
    if s == [] then []
    else (if s[0] != [] then [s[0]] else []) + NonEmpty(s[1..])
  }

  predicate NoDuplicates(s: seq<string>) {
    forall i, j :: 0 <= i < j < |s| ==> s[i] != s[j]
  }

  /** `[...new Set(list)]`: each element once, where it first occurs. */
  function Distinct(s: seq<string>): (r: seq<string>)
    ensures forall x :: x in r <==> x in s
    ensures NoDuplicates(r)
  {
    if s == [] then []
    else
      var r := Distinct(s[..|s| - 1]);
      if s[|s| - 1] in r then r else r + [s[|s| - 1]]
  }

  /** `getForumApiCandidates()`: the local server is always among them. */
  function Candidates(configured: string, origin: Option<string>): (r: seq<string>)
    ensures LocalBase in r
  {
    var pushed := PushedCandidates(configured, origin);
    assert pushed[|pushed| - 1] == LocalBase;
    Distinct(NonEmpty(pushed))
  }

  /** `getDefaultForumApiBase()`: the first base that would be pushed, before
      filtering. It never ends in `/`, and it is empty only when the stored base is
      nothing but slashes. */
  function DefaultBase(configured: string, origin: Option<string>): (b: string)
    ensures b == [] || b[|b| - 1] != '/'
    ensures b == [] ==> configured != [] && forall k :: 0 <= k < |configured| ==> configured[k] == '/'
  {
    if configured != [] then StripTrailingSlashes(configured)
    else if origin.Some? then
      var b := StripTrailingSlashes(origin.value) + ApiSuffix;
      assert b[|b| - 1] == 'i';
      b
    else LocalBase
  }

  /** `Distinct(s)` extends `Distinct` of all but the last element by at most that element. */
  lemma DistinctOfInit(s: seq<string>)
    requires s != []
    ensures var r0 := Distinct(s[..|s| - 1]);
            var r := Distinct(s);
            && |r0| <= |r| <= |r0| + 1
            && r[..|r0|] == r0
            && (|r| == |r0| + 1 ==> r[|r0|] == s[|s| - 1] && s[|s| - 1] !in s[..|s| - 1])
  {
  }

  /** `new Set` keeps the order of first occurrences: the distinct elements of any
      prefix of `s` come first, in the same order. */
  lemma {:induction false} DistinctOfPrefix(s: seq<string>, n: nat)
    requires n <= |s|
    ensures var p := Distinct(s[..n]);
            |p| <= |Distinct(s)| && Distinct(s)[..|p|] == p
    decreases |s| - n
  {
    if n < |s| {
      DistinctOfPrefix(s, n + 1);
      var t := s[..n + 1];
      DistinctOfInit(t);
      assert t[..|t| - 1] == s[..n];
      var p, q := Distinct(s[..n]), Distinct(t);
      assert Distinct(s)[..|p|] == Distinct(s)[..|q|][..|p|];
    } else {
      assert s[..n] == s;
    }
  }

  lemma {:induction false} DistinctStartsWithFirst(s: seq<string>)
    requires s != []
    ensures Distinct(s) != [] && Distinct(s)[0] == s[0]
    decreases |s|
  {
    if |s| > 1 {
      DistinctStartsWithFirst(s[..|s| - 1]);
      assert s[..|s| - 1][0] == s[0];
    }
  }

  lemma {:induction false} NonEmptyStartsWithFirst(s: seq<string>)
    requires s != [] && s[0] != []
    ensures NonEmpty(s) != [] && NonEmpty(s)[0] == s[0]
  {
  }

  /** The candidates are distinct, none is empty or ends in '/', the local server is
      always among them, and they are exactly the non-empty pushed bases. */
  lemma CandidatesShape(configured: string, origin: Option<string>)
    ensures var r := Candidates(configured, origin);
            && NoDuplicates(r)
            && LocalBase in r
            && (forall x :: x in r <==> x in PushedCandidates(configured, origin) && x != [])
            && (forall k :: 0 <= k < |r| ==> r[k] != [] && r[k][|r[k]| - 1] != '/')
  {
    var pushed := PushedCandidates(configured, origin);
    assert pushed[|pushed| - 1] == LocalBase;
    var r := Candidates(configured, origin);
    forall k | 0 <= k < |r| ensures r[k] != [] && r[k][|r[k]| - 1] != '/' {
      assert r[k] in pushed;
      if configured != [] && r[k] == StripTrailingSlashes(configured) {
      } else if origin.Some? && r[k] == StripTrailingSlashes(origin.value) + ApiSuffix {
        assert r[k][|r[k]| - 1] == 'i';
      } else {
        assert r[k] == LocalBase;
      }
    }
  }

  /** The default base, whenever it is not empty, is the first candidate. */
  lemma DefaultBaseIsFirstCandidate(configured: string, origin: Option<string>)
    requires DefaultBase(configured, origin) != []
    ensures Candidates(configured, origin) != []
    ensures Candidates(configured, origin)[0] == DefaultBase(configured, origin)
  {
    var pushed := PushedCandidates(configured, origin);
    assert pushed[0] == DefaultBase(configured, origin);
    NonEmptyStartsWithFirst(pushed);
    DistinctStartsWithFirst(NonEmpty(pushed));
  }

  /** Index of the first element of `s` that satisfies `p`. */
  function FirstWhere(s: seq<string>, p: string -> bool): (r: Option<nat>)
    ensures r.Some? ==> r.value < |s| && p(s[r.value]) && forall k :: 0 <= k < r.value ==> !p(s[k])
    ensures r.None? ==> forall k :: 0 <= k < |s| ==> !p(s[k])
  {
    if s == [] then None
    else if p(s[0]) then Some(0)
    else match FirstWhere(s[1..], p)
      case None => None
      case Some(i) => Some(i + 1)
  }

  /** What a request to one base comes back with: no answer at all (network error,
      abort), or a status that is `ok` or not, and the body. */
  datatype Answer = Unreachable | Answered(ok: bool, payload: string)

  predicate Accepted(a: Answer) {
    a.Answered? && a.ok
  }

  /** The test the loop applies to each base: did it answer `ok`? */
  function AcceptedBy(remote: string -> Answer): (p: string -> bool)
    ensures forall base :: p(base) == Accepted(remote(base))
  {
    base => Accepted(remote(base))
  }

  /** The loop stops at the first base that answered `ok`. */
  lemma FirstAcceptedIs(order: seq<string>, remote: string -> Answer, i: nat)
    requires i < |order| && Accepted(remote(order[i]))
    requires forall k :: 0 <= k < i ==> !Accepted(remote(order[k]))
    ensures FirstWhere(order, AcceptedBy(remote)) == Some(i)
  {
  }

  /** Past the last base, no base answered `ok`. */
  lemma NoneAccepted(order: seq<string>, remote: string -> Answer)
    requires forall k :: 0 <= k < |order| ==> !Accepted(remote(order[k]))
    ensures FirstWhere(order, AcceptedBy(remote)) == None
  {
  }

  /** The `for` loop of `forumApi`: the bases are tried in order and the first that
      answers `ok` wins. */
  method FirstAccepted(order: seq<string>, remote: string -> Answer) returns (found: Option<nat>)
    ensures found == FirstWhere(order, AcceptedBy(remote))
    ensures found.Some? ==> found.value < |order| && Accepted(remote(order[found.value]))
  {
    var i := 0;
    while i < |order|
      invariant 0 <= i <= |order|
      invariant forall k :: 0 <= k < i ==> !Accepted(remote(order[k]))
    {
      var answer := remote(order[i]);
      if answer.Answered? && answer.ok {
        FirstAcceptedIs(order, remote, i);
        return Some(i);
      }
      i := i + 1;
    }
    NoneAccepted(order, remote);
    return None;
  }

  /** What `forumApi` returns: a remote payload, or what the replica returns or throws. */
  datatype Reply = RemoteReply(base: string, payload: string) | LocalReply(result: Result<Payload>)

  /** The client's own state: `resolvedForumApiBase`, the `femtechForumApiBase` key,
      `hasShownLocalForumFallbackNotice`, and the toasts it has shown. */
  datatype ClientState = ClientState(resolvedBase: string, configuredBase: string,
                                     noticeShown: bool, notices: seq<string>)

  /** The notice is shown once, together with its flag. */
  predicate NoticeShownOnce(cs: ClientState) {
    cs.notices == if cs.noticeShown then [FallbackNotice] else []
  }

  /** `ensureLocalForumFallbackNotice()` */
  function NoticeStep(cs: ClientState): (r: ClientState)
    ensures r.noticeShown
  {
    if cs.noticeShown then cs else cs.(noticeShown := true, notices := cs.notices + [FallbackNotice])
  }

  lemma NoticeAtMostOnce(cs: ClientState)
    requires NoticeShownOnce(cs)
    ensures NoticeShownOnce(NoticeStep(cs)) && |NoticeStep(cs).notices| == 1
    ensures NoticeStep(NoticeStep(cs)) == NoticeStep(cs)
  {
  }

  /** `resolveForumApiBase()`: a base already resolved is kept; otherwise the first
      healthy candidate is resolved and stored, or else the default base. */
  function ResolveStep(cs: ClientState, origin: Option<string>, health: string -> bool): (r: (string, ClientState))
    ensures r.1.resolvedBase == r.0
    ensures r.1.noticeShown == cs.noticeShown && r.1.notices == cs.notices
    ensures cs.resolvedBase != [] ==> r == (cs.resolvedBase, cs)
  {
    if cs.resolvedBase != [] then (cs.resolvedBase, cs)
    else
      var candidates := Candidates(cs.configuredBase, origin);
      match FirstWhere(candidates, health)
      case Some(i) => (candidates[i], cs.(resolvedBase := candidates[i], configuredBase := candidates[i]))
      case None =>
        var base := DefaultBase(cs.configuredBase, origin);
        (base, cs.(resolvedBase := base))
  }

  /** When nothing is resolved yet, the resolved base is the first healthy candidate,
      or, when no candidate is healthy, the default base; a base once resolved is
      kept without another probe. */
  lemma ResolveOutcome(cs: ClientState, origin: Option<string>, health: string -> bool)
    ensures var (base, after) := ResolveStep(cs, origin, health);
            var candidates := Candidates(cs.configuredBase, origin);
            && after.resolvedBase == base
            && after.noticeShown == cs.noticeShown && after.notices == cs.notices
            && (cs.resolvedBase != [] ==> base == cs.resolvedBase && after == cs)
            && (cs.resolvedBase == [] && health(base) && base in candidates ==> after.configuredBase == base)
            && (cs.resolvedBase == [] ==>
                  (exists k :: 0 <= k < |candidates| && health(candidates[k])) ==>
                    exists i :: 0 <= i < |candidates| && candidates[i] == base && health(base)
                                && forall k :: 0 <= k < i ==> !health(candidates[k]))
            && (cs.resolvedBase == [] && (forall k :: 0 <= k < |candidates| ==> !health(candidates[k])) ==>
                  base == DefaultBase(cs.configuredBase, origin))
            && (base != [] ==> ResolveStep(after, origin, health) == (base, after))
  {
    if cs.resolvedBase == [] {
      var candidates := Candidates(cs.configuredBase, origin);
      match FirstWhere(candidates, health)
      case Some(i) =>
        assert ResolveStep(cs, origin, health).0 == candidates[i];
      case None =>
    }
  }

  /** `[preferredBase, ...candidates.filter(base => base !== preferredBase)]` */
  function CallOrder(preferred: string, candidates: seq<string>): (r: seq<string>)
    ensures r != [] && r[0] == preferred
    ensures forall x :: x in r <==> x == preferred || x in candidates
  {
    [preferred] + Without(candidates, preferred)
  }

  function Without(s: seq<string>, x: string): (r: seq<string>)
    ensures forall y :: y in r <==> y in s && y != x
    ensures NoDuplicates(s) ==> NoDuplicates(r)
  {
    if s == [] then []
    else
      var rest := Without(s[1..], x);
      if s[0] == x then rest
      else
        assert NoDuplicates(s) ==> s[0] !in s[1..];
        [s[0]] + rest
  }

  /** Filtering out a base that is not there changes nothing. */
  lemma {:induction false} WithoutAbsent(s: seq<string>, x: string)
    requires x !in s
    ensures Without(s, x) == s
  {
    if s != [] {
      WithoutAbsent(s[1..], x);
      assert [s[0]] + s[1..] == s;
    }
  }

  /** Filtering out a base that occurs once, at `p`, removes just that position and
      keeps the others in their order. */
  lemma {:induction false} WithoutRemovesAt(s: seq<string>, x: string, p: nat)
    requires p < |s| && s[p] == x && x !in s[..p] && x !in s[p + 1..]
    ensures Without(s, x) == s[..p] + s[p + 1..]
  {
    if p == 0 {
      WithoutAbsent(s[1..], x);
    } else {
      assert s[0] in s[..p];
      var t := s[1..];
      assert t[..p - 1] == s[1..p] && t[p..] == s[p + 1..];
      assert forall y :: y in s[1..p] ==> y in s[..p];
      WithoutRemovesAt(t, x, p - 1);
      assert [s[0]] + s[1..p] == s[..p];
    }
  }

  /** The call order is the preferred base, then the other candidates in their own
      order: all of them when the preferred base is not a candidate, and all but its
      one position otherwise. */
  lemma CallOrderKeepsOrder(preferred: string, candidates: seq<string>)
    requires NoDuplicates(candidates)
    ensures preferred !in candidates ==> CallOrder(preferred, candidates) == [preferred] + candidates
    ensures forall p :: 0 <= p < |candidates| && candidates[p] == preferred ==>
              CallOrder(preferred, candidates) == [preferred] + candidates[..p] + candidates[p + 1..]
  {
    if preferred !in candidates {
      WithoutAbsent(candidates, preferred);
    }
    forall p | 0 <= p < |candidates| && candidates[p] == preferred
      ensures CallOrder(preferred, candidates) == [preferred] + candidates[..p] + candidates[p + 1..]
    {
      assert preferred !in candidates[..p] by {
        forall j | 0 <= j < p ensures candidates[j] != preferred {
          assert candidates[..p][j] == candidates[j];
        }
      }
      assert preferred !in candidates[p + 1..] by {
        forall j | p + 1 <= j < |candidates| ensures candidates[j] != preferred {
          assert candidates[p + 1..][j - p - 1] == candidates[j];
        }
      }
      WithoutRemovesAt(candidates, preferred, p);
    }
  }

  /** Everything one call changes: the client state and the replica's storage. */
  datatype CallOutcome = CallOutcome(reply: Reply, client: ClientState, stored: LocalState)

  /** `forumApi(path, options)`: resolve, try the preferred base and then the other
      candidates; the first base that answers `ok` is cached and its payload returned.
      An `{error}` payload is thrown inside the `try` and caught like any failure, so
      it moves on to the next base too. When every base fails the notice is shown and
      the replica's result is returned, or its error thrown. */
  function CallStep(cs: ClientState, stored: LocalState, origin: Option<string>,
                    health: string -> bool, remote: string -> Answer,
                    verb: Verb, path: string, body: RequestBody, id: string, now: int): (out: CallOutcome)
    ensures out.reply.RemoteReply? ==> out.stored == stored && out.client.resolvedBase == out.reply.base
    ensures out.reply.LocalReply? ==> out.client.noticeShown
  {
    var (preferred, resolved) := ResolveStep(cs, origin, health);
    var order := CallOrder(preferred, Candidates(resolved.configuredBase, origin));
    match FirstWhere(order, AcceptedBy(remote))
    case Some(i) =>
      CallOutcome(RemoteReply(order[i], remote(order[i]).payload),
                  resolved.(resolvedBase := order[i], configuredBase := order[i]), stored)
    case None =>
      var step := LocalApiStep(stored, verb, path, body, id, now);
      CallOutcome(LocalReply(step.result), NoticeStep(resolved), step.stored)
  }

  /** `CallStep` once a base has answered `ok`. */
  lemma CallStepRemote(cs: ClientState, stored: LocalState, origin: Option<string>,
                       health: string -> bool, remote: string -> Answer,
                       verb: Verb, path: string, body: RequestBody, id: string, now: int,
                       preferred: string, resolved: ClientState, order: seq<string>, i: nat)
    requires (preferred, resolved) == ResolveStep(cs, origin, health)
    requires order == CallOrder(preferred, Candidates(resolved.configuredBase, origin))
    requires FirstWhere(order, AcceptedBy(remote)) == Some(i)
    ensures i < |order|
    ensures CallStep(cs, stored, origin, health, remote, verb, path, body, id, now)
            == CallOutcome(RemoteReply(order[i], remote(order[i]).payload),
                           resolved.(resolvedBase := order[i], configuredBase := order[i]), stored)
  {
  }

  /** `CallStep` once no base has answered `ok`. */
  lemma CallStepLocal(cs: ClientState, stored: LocalState, origin: Option<string>,
                      health: string -> bool, remote: string -> Answer,
                      verb: Verb, path: string, body: RequestBody, id: string, now: int,
                      preferred: string, resolved: ClientState, order: seq<string>)
    requires (preferred, resolved) == ResolveStep(cs, origin, health)
    requires order == CallOrder(preferred, Candidates(resolved.configuredBase, origin))
    requires FirstWhere(order, AcceptedBy(remote)) == None
    ensures var step := LocalApiStep(stored, verb, path, body, id, now);
            CallStep(cs, stored, origin, health, remote, verb, path, body, id, now)
            == CallOutcome(LocalReply(step.result), NoticeStep(resolved), step.stored)
  {
  }

  /** The replica answers exactly when no base answers `ok`, and then what it returns
      or throws is the call's outcome; otherwise the reply comes from the first base,
      in call order, that answered `ok`, that base is remembered, and the replica and
      the notice are untouched. */
  lemma CallOutcomes(cs: ClientState, stored: LocalState, origin: Option<string>,
                     health: string -> bool, remote: string -> Answer,
                     verb: Verb, path: string, body: RequestBody, id: string, now: int)
    ensures var out := CallStep(cs, stored, origin, health, remote, verb, path, body, id, now);
            var (preferred, resolved) := ResolveStep(cs, origin, health);
            var order := CallOrder(preferred, Candidates(resolved.configuredBase, origin));
            && (out.reply.LocalReply? <==> forall k :: 0 <= k < |order| ==> !Accepted(remote(order[k])))
            && (out.reply.LocalReply? ==>
                  var step := LocalApiStep(stored, verb, path, body, id, now);
                  && out.reply.result == step.result
                  && out.stored == step.stored
                  && out.client.noticeShown
                  && out.client.resolvedBase == resolved.resolvedBase)
            && (out.reply.RemoteReply? ==>
                  && (exists i :: 0 <= i < |order| && order[i] == out.reply.base
                                  && forall k :: 0 <= k < i ==> !Accepted(remote(order[k])))
                  && Accepted(remote(out.reply.base))
                  && out.reply.payload == remote(out.reply.base).payload
                  && out.client.resolvedBase == out.reply.base
                  && out.client.configuredBase == out.reply.base
                  && out.client.notices == cs.notices
                  && out.stored == stored)
            && (Accepted(remote(preferred)) ==> out.reply == RemoteReply(preferred, remote(preferred).payload))
  {
  }

  /** The notice is shown at most once however many calls fall back. */
  lemma CallKeepsNoticeOnce(cs: ClientState, stored: LocalState, origin: Option<string>,
                            health: string -> bool, remote: string -> Answer,
                            verb: Verb, path: string, body: RequestBody, id: string, now: int)
    requires NoticeShownOnce(cs)
    ensures NoticeShownOnce(CallStep(cs, stored, origin, health, remote, verb, path, body, id, now).client)
  {
    ResolveOutcome(cs, origin, health);
    var resolved := ResolveStep(cs, origin, health).1;
    assert NoticeShownOnce(resolved);
    NoticeAtMostOnce(resolved);
  }

  class Client {
    var resolvedBase: string
    var configuredBase: string
    var noticeShown: bool
    var notices: seq<string>
    const origin: Option<string>
    const replica: LocalForumStore

    function State(): ClientState
      reads this
    {
      ClientState(resolvedBase, configuredBase, noticeShown, notices)
    }

    /** A page load: nothing resolved, no notice shown. */
    constructor (configured: string, pageOrigin: Option<string>, store: LocalForumStore)
      ensures State() == ClientState([], configured, false, [])
      ensures NoticeShownOnce(State())
      ensures origin == pageOrigin && replica == store
    {
      resolvedBase := [];
      configuredBase := configured;
      noticeShown := false;
      notices := [];
      origin := pageOrigin;
      replica := store;
    }

    method EnsureNotice()
      modifies this
      ensures State() == NoticeStep(old(State()))
    {
      if noticeShown {
        return;
      }
      noticeShown := true;
      notices := notices + [FallbackNotice];
    }

    method ResolveBase(health: string -> bool) returns (base: string)
      modifies this
      ensures (base, State()) == ResolveStep(old(State()), origin, health)
    {
      if resolvedBase != [] {
        return resolvedBase;
      }
      var candidates := Candidates(configuredBase, origin);
      var i := 0;
      while i < |candidates|
        invariant 0 <= i <= |candidates|
        invariant forall k :: 0 <= k < i ==> !health(candidates[k])
        invariant State() == old(State())
      {
        if health(candidates[i]) {
          resolvedBase := candidates[i];
          configuredBase := candidates[i];
          return candidates[i];
        }
        i := i + 1;
      }
      resolvedBase := DefaultBase(configuredBase, origin);
      base := resolvedBase;
    }

    method Call(health: string -> bool, remote: string -> Answer,
                verb: Verb, path: string, body: RequestBody, id: string, now: int) returns (r: Reply)
      modifies this, replica
      ensures CallOutcome(r, State(), replica.Stored())
              == CallStep(old(State()), old(replica.Stored()), origin, health, remote, verb, path, body, id, now)
    {
      ghost var before := State();
      ghost var stored := replica.Stored();
      var preferred := ResolveBase(health);
      ghost var resolved := State();
      var order := CallOrder(preferred, Candidates(configuredBase, origin));
      var first := FirstAccepted(order, remote);
      match first
      case Some(i) =>
        CallStepRemote(before, stored, origin, health, remote, verb, path, body, id, now,
                       preferred, resolved, order, i);
        resolvedBase := order[i];
        configuredBase := order[i];
        return RemoteReply(order[i], remote(order[i]).payload);
      case None =>
      CallStepLocal(before, stored, origin, health, remote, verb, path, body, id, now,
                    preferred, resolved, order);
      EnsureNotice();
      var result := replica.Handle(verb, path, body, id, now);
      r := LocalReply(result);
    }
  }
}
