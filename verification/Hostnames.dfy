/** Hostname patterns of listeners and routes, and when two routes can both receive a request on a listener. */
module Hostnames {
  import opened Text

  // ----- the code

  function LowerChar(c: char): char {
    if 'A' <= c <= 'Z' then (c as int + 32) as char else c
  }

  function ToLower(s: string): (t: string)
    ensures |t| == |s|
    ensures forall i :: 0 <= i < |s| ==> t[i] == LowerChar(s[i])
  {
    if s == "" then "" else [LowerChar(s[0])] + ToLower(s[1..])
  }

  predicate WildcardHostnameMatches(pattern: string, hostname: string) {
    var suffix := TrimPrefix(pattern, "*.");
    hostname != suffix && HasSuffix(hostname, "." + suffix)
  }

  /** The comparison of two lower-case patterns that are neither empty nor equal. */
  predicate DistinctPatternsIntersect(a: string, b: string) {
    var aWildcard, bWildcard := HasPrefix(a, "*."), HasPrefix(b, "*.");
    if aWildcard && bWildcard then
      var aSuffix, bSuffix := TrimPrefix(a, "*."), TrimPrefix(b, "*.");
      aSuffix == bSuffix || HasSuffix(aSuffix, "." + bSuffix) || HasSuffix(bSuffix, "." + aSuffix)
    else if aWildcard then WildcardHostnameMatches(a, b)
    else if bWildcard then WildcardHostnameMatches(b, a)
    else false
  }

  predicate PatternsIntersect(a: string, b: string) {
    var aValue, bValue := ToLower(a), ToLower(b);
    aValue == "" || bValue == "" || aValue == bValue || DistinctPatternsIntersect(aValue, bValue)
  }

  function FilterIntersecting(hostnames: seq<string>, listener: string): (r: seq<string>)
    ensures forall h :: h in r <==> h in hostnames && PatternsIntersect(h, listener)
  {
    if hostnames == [] then []
    else
      (if PatternsIntersect(hostnames[0], listener) then [hostnames[0]] else []) +
      FilterIntersecting(hostnames[1..], listener)
  }

  function RouteHostnamesForListener(hostnames: seq<string>, listener: Option<string>): seq<string> {
    if listener.None? then
      if hostnames == [] then [""] else hostnames
    else if hostnames == [] then [listener.value]
    else FilterIntersecting(hostnames, listener.value)
  }

  predicate RouteHostnamesIntersect(a: seq<string>, b: seq<string>) {
    exists p | p in a :: exists q | q in b :: PatternsIntersect(p, q)
  }

  /** Two routes share a hostname on a listener. */
  predicate ShareHostname(a: seq<string>, b: seq<string>, listener: Option<string>) {
    RouteHostnamesIntersect(RouteHostnamesForListener(a, listener), RouteHostnamesForListener(b, listener))
  }

  // ----- what patterns mean

  /** Hosts of requests, and patterns the Gateway API admits: a host, a wildcard `*.` before a host, or "". */
  predicate ValidHost(host: string) {
    host != "" && host[0] != '.' && '*' !in host
  }

  predicate ValidPattern(pattern: string) {
    pattern == "" || ValidHost(pattern) || (HasPrefix(pattern, "*.") && ValidHost(pattern[2..]))
  }

  /** A wildcard stands for one or more leading labels; comparison ignores case; "" covers every host. */
  predicate Covers(pattern: string, host: string) {
    var p, h := ToLower(pattern), ToLower(host);
    || p == ""
    || (if HasPrefix(p, "*.") then |h| > |p| - 1 && HasSuffix(h, p[1..]) else h == p)
  }

  ghost predicate SomePatternCovers(patterns: seq<string>, host: string) {
    patterns == [] || exists p :: p in patterns && Covers(p, host)
  }

  ghost predicate ListenerAdmits(listener: Option<string>, host: string) {
    listener.None? || Covers(listener.value, host)
  }

  ghost predicate CommonHost(a: string, b: string, c: string, host: string) {
    ValidHost(host) && Covers(a, host) && Covers(b, host) && Covers(c, host)
  }

  // ----- patterns are nested or disjoint

  lemma {:induction false} LowerKeepsValidity(s: string)
    ensures ValidHost(s) ==> ValidHost(ToLower(s))
    ensures ValidPattern(s) ==> ValidPattern(ToLower(s))
    ensures ToLower(ToLower(s)) == ToLower(s)
    ensures HasPrefix(s, "*.") <==> HasPrefix(ToLower(s), "*.")
  {
    LowerKeepsStar(s);
    LowerKeepsHost(s);
  }

  lemma {:induction false} LowerKeepsStar(s: string)
    ensures HasPrefix(s, "*.") <==> HasPrefix(ToLower(s), "*.")
  {
    var t := ToLower(s);
    assert HasPrefix(s, "*.") <==> |s| >= 2 && s[0] == '*' && s[1] == '.';
    assert HasPrefix(t, "*.") <==> |t| >= 2 && t[0] == '*' && t[1] == '.';
  }

  lemma {:induction false} LowerKeepsHost(s: string)
    ensures ValidHost(s) ==> ValidHost(ToLower(s))
  {
  }

  ghost predicate Within(p: string, q: string) {
    forall h :: ValidHost(h) && Covers(p, h) ==> Covers(q, h)
  }

  lemma {:induction false} SuffixTransitive(s: string, t: string, u: string)
    requires HasSuffix(s, t) && HasSuffix(t, u)
    ensures HasSuffix(s, u)
  {
    assert s[|s| - |u|..] == s[|s| - |t|..][|t| - |u|..];
  }

  /** Of two suffixes of one text the shorter is a suffix of the longer. */
  lemma {:induction false} SuffixesNest(s: string, t: string, u: string)
    requires HasSuffix(s, t) && HasSuffix(s, u) && |u| <= |t|
    ensures HasSuffix(t, u)
  {
    assert t[|t| - |u|..] == s[|s| - |t|..][|t| - |u|..];
  }

  lemma {:induction false} WildcardTail(p: string)
    requires HasPrefix(p, "*.")
    ensures TrimPrefix(p, "*.") == p[2..] && p[1..] == "." + p[2..]
  {
    assert p[1] == p[..2][1] == '.';
  }

  /** For lower-case patterns: a wildcard inside another wildcard covers fewer hosts. */
  lemma {:induction false} WildcardsNest(p: string, q: string)
    requires ToLower(p) == p && ToLower(q) == q
    requires HasPrefix(p, "*.") && HasPrefix(q, "*.")
    requires p == q || HasSuffix(p[2..], "." + q[2..])
    ensures Within(p, q)
  {
    WildcardTail(p);
    WildcardTail(q);
    if p != q {
      assert p[1..][1..] == p[2..];
      assert HasSuffix(p[1..], p[2..]);
      SuffixTransitive(p[1..], p[2..], q[1..]);
      forall h | ValidHost(h) && Covers(p, h) ensures Covers(q, h) {
        SuffixTransitive(ToLower(h), p[1..], q[1..]);
      }
    }
  }

  lemma {:induction false} HostUnderWildcard(p: string, q: string)
    requires ToLower(p) == p && ToLower(q) == q && q != ""
    requires !HasPrefix(p, "*.") && HasPrefix(q, "*.") && ValidHost(p)
    ensures WildcardHostnameMatches(q, p) <==> Covers(q, p)
    ensures Covers(q, p) ==> Within(p, q)
  {
    WildcardTail(q);
    if Covers(q, p) {
      forall h | ValidHost(h) && Covers(p, h) ensures Covers(q, h) {
        assert ToLower(h) == p;
      }
    }
  }

  lemma {:induction false} LowerPatternsNest(p: string, q: string)
    requires ToLower(p) == p && ToLower(q) == q && ValidPattern(p) && ValidPattern(q)
    requires PatternsIntersect(p, q)
    ensures Within(p, q) || Within(q, p)
  {
    if p != "" && q != "" && p != q {
      if HasPrefix(p, "*.") && HasPrefix(q, "*.") {
        WildcardTail(p);
        WildcardTail(q);
        SameTail(p, q);
        if HasSuffix(p[2..], "." + q[2..]) { WildcardsNest(p, q); } else { WildcardsNest(q, p); }
      } else if HasPrefix(p, "*.") {
        HostUnderWildcard(q, p);
      } else if HasPrefix(q, "*.") {
        HostUnderWildcard(p, q);
      }
    }
  }

  lemma {:induction false} SameTail(p: string, q: string)
    requires HasPrefix(p, "*.") && HasPrefix(q, "*.")
    ensures p[2..] == q[2..] ==> p == q
  {
    assert p == p[..2] + p[2..] && q == q[..2] + q[2..];
  }

  /** Covering depends on the lower-case pattern only. */
  lemma {:induction false} LowerIsEnough(p: string, h: string)
    ensures Covers(p, h) <==> Covers(ToLower(p), h)
  {
    LowerKeepsValidity(p);
  }

  lemma {:induction false} PatternsNest(p: string, q: string)
    requires ValidPattern(p) && ValidPattern(q) && PatternsIntersect(p, q)
    ensures Within(p, q) || Within(q, p)
  {
    LowerKeepsValidity(p);
    LowerKeepsValidity(q);
    LowerPatternsNest(ToLower(p), ToLower(q));
    forall h ensures Covers(p, h) <==> Covers(ToLower(p), h) { LowerIsEnough(p, h); }
    forall h ensures Covers(q, h) <==> Covers(ToLower(q), h) { LowerIsEnough(q, h); }
  }

  // ----- intersection is a common host

  function SomeHost(pattern: string): string {
    var p := ToLower(pattern);
    if p == "" then "x" else if HasPrefix(p, "*.") then "x" + p[1..] else p
  }

  lemma {:induction false} SomeHostIsCovered(pattern: string)
    requires ValidPattern(pattern)
    ensures ValidHost(SomeHost(pattern)) && Covers(pattern, SomeHost(pattern))
  {
    var p := ToLower(pattern);
    LowerKeepsValidity(pattern);
    if HasPrefix(p, "*.") {
      var host := "x" + p[1..];
      WildcardTail(p);
      assert ValidHost(p[2..]);
      assert ToLower(host) == host;
      assert host[1..] == p[1..];
      assert host[|host| - |p[1..]|..] == p[1..];
    }
  }

  lemma {:induction false} CommonHostIntersects(p: string, q: string, host: string)
    requires ValidPattern(p) && ValidPattern(q) && ValidHost(host) && Covers(p, host) && Covers(q, host)
    ensures PatternsIntersect(p, q)
  {
    var a, b, h := ToLower(p), ToLower(q), ToLower(host);
    LowerKeepsValidity(p);
    LowerKeepsValidity(q);
    LowerKeepsValidity(host);
    if a != "" && b != "" && a != b {
      if HasPrefix(a, "*.") && HasPrefix(b, "*.") {
        WildcardTail(a);
        WildcardTail(b);
        SameTail(a, b);
        WildcardsMeet(a, b, h);
      } else if HasPrefix(a, "*.") {
        HostUnderWildcard(b, a);
      } else if HasPrefix(b, "*.") {
        HostUnderWildcard(a, b);
      }
    }
  }

  lemma {:induction false} WildcardsMeet(a: string, b: string, h: string)
    requires HasPrefix(a, "*.") && HasPrefix(b, "*.") && a != b
    requires HasSuffix(h, a[1..]) && HasSuffix(h, b[1..])
    ensures HasSuffix(a[2..], b[1..]) || HasSuffix(b[2..], a[1..])
  {
    SameTail(a, b);
    WildcardTail(a);
    WildcardTail(b);
    if |b| < |a| {
      SuffixesNest(h, a[1..], b[1..]);
      SuffixesNest(a[1..], a[2..], b[1..]);
    } else if |a| < |b| {
      SuffixesNest(h, b[1..], a[1..]);
      SuffixesNest(b[1..], b[2..], a[1..]);
    }
  }

  /** Three patterns that meet pairwise have a host in common. */
  lemma {:induction false} PairwiseGivesCommonHost(a: string, b: string, c: string) returns (host: string)
    requires ValidPattern(a) && ValidPattern(b) && ValidPattern(c)
    requires PatternsIntersect(a, b) && PatternsIntersect(a, c) && PatternsIntersect(b, c)
    ensures CommonHost(a, b, c, host)
  {
    PatternsNest(a, b);
    if Within(a, b) {
      PatternsNest(a, c);
      host := SomeHost(if Within(a, c) then a else c);
    } else {
      PatternsNest(b, c);
      host := SomeHost(if Within(b, c) then b else c);
    }
    SomeHostIsCovered(a);
    SomeHostIsCovered(b);
    SomeHostIsCovered(c);
  }

  /** Two patterns intersect exactly when some host matches both. */
  lemma {:induction false} IntersectionIsExact(a: string, b: string)
    requires ValidPattern(a) && ValidPattern(b)
    ensures PatternsIntersect(a, b) <==> exists host :: CommonHost(a, b, "", host)
  {
    if PatternsIntersect(a, b) {
      var host := PairwiseGivesCommonHost(a, b, "");
    }
    if host :| CommonHost(a, b, "", host) {
      CommonHostIntersects(a, b, host);
    }
  }

  // ----- sharing a hostname on a listener

  ghost predicate SharedHost(a: seq<string>, b: seq<string>, listener: Option<string>, host: string) {
    ValidHost(host) && ListenerAdmits(listener, host) && SomePatternCovers(a, host) && SomePatternCovers(b, host)
  }

  function ListenerPattern(listener: Option<string>): string {
    if listener.Some? then listener.value else ""
  }

  /** The filtered names all meet the listener's pattern; a host the listener admits and the route covers is
      covered by one of them. */
  lemma {:induction false} FilteredNames(hostnames: seq<string>, listener: Option<string>)
    requires (forall h :: h in hostnames ==> ValidPattern(h)) && ValidPattern(ListenerPattern(listener))
    ensures forall p :: p in RouteHostnamesForListener(hostnames, listener) ==>
              && ValidPattern(p) && PatternsIntersect(p, ListenerPattern(listener))
              && (hostnames == [] || p in hostnames)
    ensures forall host :: ValidHost(host) && ListenerAdmits(listener, host) && SomePatternCovers(hostnames, host) ==>
              exists p :: p in RouteHostnamesForListener(hostnames, listener) && Covers(p, host)
  {
    var names, pattern := RouteHostnamesForListener(hostnames, listener), ListenerPattern(listener);
    forall host | ValidHost(host) && ListenerAdmits(listener, host) && SomePatternCovers(hostnames, host)
      ensures exists p :: p in names && Covers(p, host)
    {
      if hostnames == [] {
        assert pattern in names;
      } else {
        var p :| p in hostnames && Covers(p, host);
        CommonHostIntersects(p, pattern, host);
        assert p in names;
      }
    }
  }

  /** The code's test on a listener is exact: it succeeds if and only if one concrete host matches the listener
      and a pattern of each route (a route without hostnames takes every host). */
  lemma {:induction false} ShareHostnameIsExact(a: seq<string>, b: seq<string>, listener: Option<string>)
    requires forall h :: h in a + b ==> ValidPattern(h)
    requires ValidPattern(ListenerPattern(listener))
    ensures ShareHostname(a, b, listener) <==> exists host :: SharedHost(a, b, listener, host)
  {
    forall h | h in a ensures ValidPattern(h) { assert h in a + b; }
    forall h | h in b ensures ValidPattern(h) { assert h in a + b; }
    FilteredNames(a, listener);
    FilteredNames(b, listener);
    var aNames, bNames := RouteHostnamesForListener(a, listener), RouteHostnamesForListener(b, listener);
    if ShareHostname(a, b, listener) {
      var p, q :| p in aNames && q in bNames && PatternsIntersect(p, q);
      var host := PairwiseGivesCommonHost(p, q, ListenerPattern(listener));
      assert SharedHost(a, b, listener, host);
    }
    if host :| SharedHost(a, b, listener, host) {
      var p :| p in aNames && Covers(p, host);
      var q :| q in bNames && Covers(q, host);
      CommonHostIntersects(p, q, host);
    }
  }
}
