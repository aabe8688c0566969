/** `isAllowlistedHost` (script.js): the forum page may only be embedded from a
    host on the allowlist or from one of its subdomains, compared case-blind. */
module EmbedHosts {
  import opened Text
  import Slug

  const AllowedDomain: string := "pregnancyarchive.com"
  const Allowlist: seq<string> := [AllowedDomain]

  /** `String(hostname || '').toLowerCase()` on ASCII host names. */
  function LowerHost(s: string): (r: string)
    ensures |r| == |s|
    ensures forall k :: 0 <= k < |s| ==> r[k] == Slug.LowerAscii(s[k])
  {
    if s == [] then [] else [Slug.LowerAscii(s[0])] + LowerHost(s[1..])
  }

  /** `host === allowed || host.endsWith('.' + allowed)` */
  predicate MatchesAllowed(host: string, allowed: string) {
    host == allowed || EndsWith(host, "." + allowed)
  }

  /** `FORUM_EMBED_ALLOWLIST.some(...)` over the lower-cased host. */
  function AnyMatches(host: string, list: seq<string>): (r: bool)
    ensures r <==> exists i :: 0 <= i < |list| && MatchesAllowed(host, list[i])
  {
    if list == [] then false
    else MatchesAllowed(host, list[0]) || AnyMatches(host, list[1..])
  }

  /** `isAllowlistedHost(hostname)`. With one listed domain, acceptance is a match
      against that domain. */
  function IsAllowlistedHost(hostname: string): (r: bool)
    ensures r <==> MatchesAllowed(LowerHost(hostname), AllowedDomain)
  {
    assert Allowlist[0] == AllowedDomain;
    AnyMatches(LowerHost(hostname), Allowlist)
  }

  /** A host matches exactly when it is the domain, or ends in the domain right
      after a dot. */
  lemma MatchesIff(h: string, a: string)
    ensures MatchesAllowed(h, a) <==>
              (h == a || (|a| < |h| && h[|h| - |a|..] == a && h[|h| - |a| - 1] == '.'))
  {
    if |a| < |h| && h[|h| - |a|..] == a && h[|h| - |a| - 1] == '.' {
      assert h[|h| - |"." + a|..] == "." + a;
    }
    if EndsWith(h, "." + a) {
      assert h[|h| - |a|..] == h[|h| - |"." + a|..][1..];
      assert h[|h| - |a| - 1] == h[|h| - |"." + a|..][0];
    }
  }

  lemma {:induction false} LowerHostAppend(a: string, b: string)
    ensures LowerHost(a + b) == LowerHost(a) + LowerHost(b)
  {
    if a != [] {
      assert (a + b)[1..] == a[1..] + b;
      LowerHostAppend(a[1..], b);
    } else {
      assert a + b == b;
    }
  }

  /** Lower-casing twice is lower-casing once. */
  lemma LowerHostTwice(s: string)
    ensures LowerHost(LowerHost(s)) == LowerHost(s)
  {
  }

  /** Upper-case letters in the host name make no difference. */
  lemma CaseBlind(hostname: string)
    ensures IsAllowlistedHost(LowerHost(hostname)) == IsAllowlistedHost(hostname)
  {
    LowerHostTwice(hostname);
  }

  /** A subdomain of a matching host matches. */
  lemma SubdomainMatches(sub: string, h: string, a: string)
    requires MatchesAllowed(h, a)
    ensures MatchesAllowed(sub + "." + h, a)
  {
    var full := sub + "." + h;
    assert full[|full| - |h|..] == h;
    if h == a {
      assert full[|full| - |"." + a|..] == "." + a;
    } else {
      assert full[|full| - |"." + a|..] == h[|h| - |"." + a|..];
    }
  }

  /** Every subdomain of an accepted host is accepted. */
  lemma SubdomainAccepted(sub: string, hostname: string)
    requires IsAllowlistedHost(hostname)
    ensures IsAllowlistedHost(sub + "." + hostname)
  {
    LowerHostOfSubdomain(sub, hostname);
    SubdomainMatches(LowerHost(sub), LowerHost(hostname), AllowedDomain);
  }

  lemma LowerHostOfSubdomain(sub: string, hostname: string)
    ensures LowerHost(sub + "." + hostname) == LowerHost(sub) + "." + LowerHost(hostname)
  {
    LowerHostAppend(sub + ".", hostname);
    LowerHostAppend(sub, ".");
    assert LowerHost(".") == ".";
  }

  /** The listed domain itself is accepted, in any letter case. */
  lemma ListedDomainAccepted(hostname: string)
    requires LowerHost(hostname) == AllowedDomain
    ensures IsAllowlistedHost(hostname)
  {
  }

  /** Lower-casing a lookalike host does not make it match. */
  lemma LowerLookalikeMisses(prefix: string, a: string)
    requires prefix != [] && prefix[|prefix| - 1] != '.'
    ensures !MatchesAllowed(LowerHost(prefix + a), a)
  {
    LowerHostAppend(prefix, a);
    var lp := LowerHost(prefix);
    var h := lp + LowerHost(a);
    assert lp[|lp| - 1] == Slug.LowerAscii(prefix[|prefix| - 1]);
    assert h[|h| - |a| - 1] == lp[|lp| - 1];
    MatchesIff(h, a);
  }

  /** A host that only ends with the domain's letters, without the dot, is refused
      (`evilpregnancyarchive.com`). */
  lemma LookalikeRejected(prefix: string)
    requires prefix != [] && prefix[|prefix| - 1] != '.'
    ensures !IsAllowlistedHost(prefix + AllowedDomain)
  {
    LowerLookalikeMisses(prefix, AllowedDomain);
  }
}
