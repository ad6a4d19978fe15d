/**
 * The dashboard's client-side check `isValidUrl` (assets/js/dashboard.js): trim, add `http://` when there is no
 * `://`, then test one anchored regular expression.
 *
 * The expression is modelled by what an anchored match means: the prepared text splits into a scheme, optional
 * credentials, a host, an optional port and an optional resource, each matching its part of the pattern, with
 * the private-network lookaheads read at the start of the host. The pattern is case-insensitive, which affects
 * only ASCII letters here.
 */
module UrlValidator {
  import opened Numerals

  /** JavaScript's white space and line terminators: what `trim` removes and `\s` matches. */
  predicate IsJsSpace(c: char)
  {
    c == '\t' || c == '\n' || c == '\U{000B}' || c == '\U{000C}' || c == '\r' || c == ' ' || c == '\U{00A0}' ||
    c == '\U{1680}' || ('\U{2000}' <= c <= '\U{200A}') || c == '\U{2028}' || c == '\U{2029}' ||
    c == '\U{202F}' || c == '\U{205F}' || c == '\U{3000}' || c == '\U{FEFF}'
  }

  predicate NoSpace(s: string)
  {
    forall k :: 0 <= k < |s| ==> !IsJsSpace(s[k])
  }

  function TrimStart(s: string): (r: string)
    ensures |r| <= |s| && r == s[|s| - |r|..]
    ensures |r| == 0 || !IsJsSpace(r[0])
    ensures |s| == 0 || !IsJsSpace(s[0]) ==> r == s
  {
    if |s| > 0 && IsJsSpace(s[0]) then TrimStart(s[1..]) else s
  }

  function TrimEnd(s: string): (r: string)
    ensures |r| <= |s| && r == s[..|r|]
    ensures |r| == 0 || !IsJsSpace(r[|r| - 1])
    ensures |s| == 0 || !IsJsSpace(s[|s| - 1]) ==> r == s
  {
    if |s| > 0 && IsJsSpace(s[|s| - 1]) then TrimEnd(s[..|s| - 1]) else s
  }

  /** `String.prototype.trim`. */
  function Trim(s: string): (r: string)
    ensures |r| <= |s|
    ensures |r| == 0 || (!IsJsSpace(r[0]) && !IsJsSpace(r[|r| - 1]))
    ensures |s| == 0 || (!IsJsSpace(s[0]) && !IsJsSpace(s[|s| - 1])) ==> r == s
  {
    var u := TrimStart(s);
    var r := TrimEnd(u);
    assert |r| == 0 || r[0] == u[0];
    r
  }

  /** `TrimStart` removes white space only. */
  lemma {:induction false} TrimStartDropsSpace(s: string)
    ensures forall k :: 0 <= k < |s| - |TrimStart(s)| ==> IsJsSpace(s[k])
  {
    if |s| > 0 && IsJsSpace(s[0]) {
      TrimStartDropsSpace(s[1..]);
      assert forall k :: 1 <= k < |s| ==> s[k] == s[1..][k - 1];
    }
  }

  /** `TrimEnd` removes white space only. */
  lemma {:induction false} TrimEndDropsSpace(s: string)
    ensures forall k :: |TrimEnd(s)| <= k < |s| ==> IsJsSpace(s[k])
  {
    if |s| > 0 && IsJsSpace(s[|s| - 1]) {
      TrimEndDropsSpace(s[..|s| - 1]);
    }
  }

  /**
   * Trimming keeps the text between the ends and removes only white space: the result is a slice of the input
   * with white space alone before and after it.
   */
  lemma TrimKeepsContent(s: string)
    ensures exists a, b ::
      (0 <= a <= b <= |s| && Trim(s) == s[a..b] &&
       (forall k :: 0 <= k < a ==> IsJsSpace(s[k])) && (forall k :: b <= k < |s| ==> IsJsSpace(s[k])))
  {
    var u := TrimStart(s);
    var r := TrimEnd(u);
    TrimStartDropsSpace(s);
    TrimEndDropsSpace(u);
    var a := |s| - |u|;
    assert r == s[a..a + |r|];
    assert forall k :: a + |r| <= k < |s| ==> s[k] == u[k - a];
  }

  /** Trimming twice is trimming once. */
  lemma TrimIdempotent(s: string)
    ensures Trim(Trim(s)) == Trim(s)
  {
    var u := TrimStart(s);
    var v := TrimEnd(u);
    if |v| > 0 {
      assert v[0] == u[0];
    }
  }

  /** `t` occurs in `s` at position `i`. */
  predicate OccursAt(s: string, t: string, i: nat)
    requires i + |t| <= |s|
  {
    s[i..i + |t|] == t
  }

  /** `String.prototype.includes`. */
  predicate Contains(s: string, t: string)
  {
    exists i :: 0 <= i <= |s| - |t| && OccursAt(s, t, i)
  }

  /** The text the expression is tested on: trimmed, and given `http://` when it has no `://`. */
  function Prepared(input: string): (s: string)
    ensures Contains(s, "://")
  {
    var t := Trim(input);
    if Contains(t, "://") then t
    else
      var s := "http://" + t;
      assert OccursAt(s, "://", 4);
      s
  }

  function Lower(c: char): char
  {
    if 'A' <= c <= 'Z' then (c as int + 32) as char else c
  }

  /** Equality up to the case of ASCII letters, against a lower-case pattern. */
  predicate EqualsIgnoreCase(s: string, lower: string)
  {
    |s| == |lower| && forall k :: 0 <= k < |s| ==> Lower(s[k]) == lower[k]
  }

  /** `(?:(?:https?|ftp):)?\/\/`. */
  predicate IsSchemePrefix(p: string)
  {
    p == "//" ||
    (|p| >= 3 && p[|p| - 3..] == "://" &&
     var name := p[..|p| - 3];
     EqualsIgnoreCase(name, "http") || EqualsIgnoreCase(name, "https") || EqualsIgnoreCase(name, "ftp"))
  }

  /** `(?:\S+(?::\S*)?@)?`: empty, or a non-empty run without white space followed by `@`. */
  predicate IsUserInfo(u: string)
  {
    |u| == 0 || (|u| >= 2 && u[|u| - 1] == '@' && NoSpace(u[..|u| - 1]))
  }

  /** `[1-9]\d?|1\d\d|2[01]\d|22[0-3]`. */
  predicate IsFirstOctet(t: string)
  {
    AllDigits(t) &&
    ((1 <= |t| <= 2 && t[0] != '0') ||
     (|t| == 3 && (t[0] == '1' || (t[0] == '2' && (t[1] == '0' || t[1] == '1')) ||
                   (t[0] == '2' && t[1] == '2' && t[2] <= '3'))))
  }

  /** `1?\d{1,2}|2[0-4]\d|25[0-5]`. */
  predicate IsMidOctet(t: string)
  {
    AllDigits(t) &&
    (1 <= |t| <= 2 ||
     (|t| == 3 && (t[0] == '1' || (t[0] == '2' && t[1] <= '4') || (t[0] == '2' && t[1] == '5' && t[2] <= '5'))))
  }

  /** `[1-9]\d?|1\d\d|2[0-4]\d|25[0-4]`. */
  predicate IsLastOctet(t: string)
  {
    AllDigits(t) &&
    ((1 <= |t| <= 2 && t[0] != '0') ||
     (|t| == 3 && (t[0] == '1' || (t[0] == '2' && t[1] <= '4') || (t[0] == '2' && t[1] == '5' && t[2] <= '4'))))
  }

  /** Four octets separated by dots. */
  predicate IsIpHost(h: string)
  {
    exists a, b, c :: 0 < a < b < c < |h| && IpSplit(h, a, b, c)
  }

  predicate IpSplit(h: string, a: nat, b: nat, c: nat)
    requires a < b < c < |h|
  {
    h[a] == '.' && h[b] == '.' && h[c] == '.' &&
    IsFirstOctet(h[..a]) && IsMidOctet(h[a + 1..b]) && IsMidOctet(h[b + 1..c]) && IsLastOctet(h[c + 1..])
  }

  /** Whether `t` begins with `n` groups of `\.\d{1,3}`. */
  predicate DotGroups(t: string, n: nat)
    decreases n
  {
    n == 0 ||
    (|t| >= 2 && t[0] == '.' && IsDigit(t[1]) &&
     (DotGroups(t[2..], n - 1) ||
      (|t| >= 3 && IsDigit(t[2]) &&
       (DotGroups(t[3..], n - 1) || (|t| >= 4 && IsDigit(t[3]) && DotGroups(t[4..], n - 1))))))
  }

  /** `1[6-9]|2\d|3[0-1]`, the second octet of 172.16/12. */
  predicate IsPrivate172(t: string)
    requires |t| == 2
  {
    (t[0] == '1' && '6' <= t[1] <= '9') || (t[0] == '2' && IsDigit(t[1])) || (t[0] == '3' && '0' <= t[1] <= '1')
  }

  /** The three negative lookaheads: the text from the host on begins with a private or local address. */
  predicate Private(t: string)
  {
    ("10" <= t && DotGroups(t[2..], 3)) ||
    ("127" <= t && DotGroups(t[3..], 3)) ||
    ("169.254" <= t && DotGroups(t[7..], 2)) ||
    ("192.168" <= t && DotGroups(t[7..], 2)) ||
    ("172." <= t && |t| >= 6 && IsPrivate172(t[4..6]) && DotGroups(t[6..], 2))
  }

  /** `[a-z0-9¡-￿]` under the case-insensitive flag. */
  predicate IsLabelEdge(c: char)
  {
    'a' <= c <= 'z' || 'A' <= c <= 'Z' || '0' <= c <= '9' || c >= '\U{00A1}'
  }

  /** `[a-z¡-￿]` under the case-insensitive flag. */
  predicate IsTldChar(c: char)
  {
    'a' <= c <= 'z' || 'A' <= c <= 'Z' || c >= '\U{00A1}'
  }

  /** A host name label: 1 to 64 characters, alphanumeric at both ends, `_` and `-` allowed inside. */
  predicate IsLabel(l: string)
  {
    1 <= |l| <= 64 && IsLabelEdge(l[0]) && IsLabelEdge(l[|l| - 1]) &&
    forall k :: 0 < k < |l| - 1 ==> (IsLabelEdge(l[k]) || l[k] == '_' || l[k] == '-')
  }

  /** One or more labels, each followed by a dot. */
  predicate IsLabels(s: string)
    decreases |s|
  {
    exists i :: 0 < i < |s| && s[i] == '.' && IsLabel(s[..i]) && (i + 1 == |s| || IsLabels(s[i + 1..]))
  }

  /** `[a-z¡-￿]{2,}\.?`. */
  predicate IsTld(t: string)
  {
    (|t| >= 2 && forall k :: 0 <= k < |t| ==> IsTldChar(t[k])) ||
    (|t| >= 3 && t[|t| - 1] == '.' && forall k :: 0 <= k < |t| - 1 ==> IsTldChar(t[k]))
  }

  predicate IsDomainHost(h: string)
  {
    exists i :: 0 < i < |h| && IsLabels(h[..i]) && IsTld(h[i..])
  }

  /** `(?::\d{2,5})?`. */
  predicate IsPort(p: string)
  {
    |p| == 0 || (3 <= |p| <= 6 && p[0] == ':' && AllDigits(p[1..]))
  }

  /** `(?:[/?#]\S*)?`. */
  predicate IsResource(r: string)
  {
    |r| == 0 || ((r[0] == '/' || r[0] == '?' || r[0] == '#') && NoSpace(r[1..]))
  }

  /** The host alternatives: a public dotted quad (the lookaheads read from `j` on), or a host name. */
  predicate HostAt(s: string, j: nat, k: nat)
    requires j <= k <= |s|
  {
    (IsIpHost(s[j..k]) && !Private(s[j..])) || IsDomainHost(s[j..k])
  }

  /** One way for the whole of `s` to match: scheme `s[..i]`, credentials, host, port, resource `s[l..]`. */
  predicate MatchesAt(s: string, i: nat, j: nat, k: nat, l: nat)
  {
    i <= j <= k <= l <= |s| &&
    IsSchemePrefix(s[..i]) && IsUserInfo(s[i..j]) && HostAt(s, j, k) && IsPort(s[k..l]) && IsResource(s[l..])
  }

  /** `reWebURL.test(s)`. */
  function WebUrlRegexTest(s: string): (ok: bool)
    ensures ok ==> |s| >= 2 && (s[0] == '/' || Lower(s[0]) == 'h' || Lower(s[0]) == 'f')
  {
    var ok := exists i, j, k, l :: 0 <= i <= j <= k <= l <= |s| && MatchesAt(s, i, j, k, l);
    assert ok ==> |s| >= 2 && (s[0] == '/' || Lower(s[0]) == 'h' || Lower(s[0]) == 'f') by {
      if ok {
        var i, j, k, l :| 0 <= i <= j <= k <= l <= |s| && MatchesAt(s, i, j, k, l);
        SchemeFirstChar(s[..i]);
      }
    }
    ok
  }

  /** `isValidUrl`: blank input is never a valid url. */
  function IsValidUrl(input: string): (ok: bool)
    ensures ok ==> |Trim(input)| > 0
  {
    var ok := WebUrlRegexTest(Prepared(input));
    assert |Trim(input)| == 0 ==> !ok by {
      if |Trim(input)| == 0 {
        assert Prepared(input) == "http://" by {
          assert !Contains(Trim(input), "://");
        }
        SchemeOnlyRejected();
      }
    }
    ok
  }

  /** `http://` alone has no host, so the pattern refuses it. */
  lemma SchemeOnlyRejected()
    ensures !WebUrlRegexTest("http://")
  {
    var s := "http://";
    forall i, j, k, l | 0 <= i <= j <= k <= l <= |s| ensures !MatchesAt(s, i, j, k, l) {
      if IsSchemePrefix(s[..i]) {
        SchemeOnlyPrefix(i);
        assert s[j..k] == [];
      }
    }
  }

  /** The only scheme prefix of `http://` is the whole of it. */
  lemma SchemeOnlyPrefix(i: nat)
    requires i <= 7 && IsSchemePrefix("http://"[..i])
    ensures i == 7
  {
    var s := "http://";
    var p := s[..i];
    assert p != "//" by { if |p| == 2 { assert p[0] == s[0]; } }
    assert s[i - 3] == p[|p| - 3..][0] == ':';
  }

  /** Leading and trailing white space never changes the verdict. */
  lemma {:induction false} TrimmedFirst(input: string)
    ensures Prepared(Trim(input)) == Prepared(input)
    ensures IsValidUrl(Trim(input)) == IsValidUrl(input)
  {
    PreparedOfTrim(input);
    SamePrepared(Trim(input), input);
  }

  lemma PreparedOfTrim(input: string)
    ensures Prepared(Trim(input)) == Prepared(input)
  {
    TrimIdempotent(input);
  }

  /** The verdict depends on the prepared text alone. */
  lemma SamePrepared(a: string, b: string)
    requires Prepared(a) == Prepared(b)
    ensures IsValidUrl(a) == IsValidUrl(b)
  {
  }

  /** One matching split of the prepared text is enough to accept. */
  lemma MatchAccepts(input: string, s: string, i: nat, j: nat, k: nat, l: nat)
    requires Prepared(input) == s && MatchesAt(s, i, j, k, l)
    ensures IsValidUrl(input)
  {
  }

  /** A bare host is one whose characters cannot start a scheme, credentials, port or resource. */
  predicate IsBareHost(q: string)
  {
    |q| > 0 && NoSpace(q) && forall k :: 0 <= k < |q| ==> !IsDelimiter(q[k])
  }

  predicate IsDelimiter(c: char)
  {
    c == ':' || c == '/' || c == '?' || c == '#' || c == '@'
  }

  /** A text without `:` does not contain `://`. */
  lemma NoColonNoSeparator(t: string)
    requires forall k :: 0 <= k < |t| ==> t[k] != ':'
    ensures !Contains(t, "://")
  {
    forall i | 0 <= i <= |t| - 3 ensures !OccursAt(t, "://", i) {
      assert t[i..i + 3][0] == t[i];
    }
  }

  /** A bare host is prepared by prefixing `http://`. */
  lemma PreparedBare(q: string)
    requires IsBareHost(q)
    ensures Prepared(q) == "http://" + q
  {
    assert TrimStart(q) == q;
    NoColonNoSeparator(q);
  }

  /** The only scheme `http://` followed by a bare host admits is `http://` itself. */
  lemma BareScheme(q: string, i: nat)
    requires IsBareHost(q) && i <= |"http://" + q| && IsSchemePrefix(("http://" + q)[..i])
    ensures i == 7
  {
    var s := "http://" + q;
    var p := s[..i];
    assert p != "//" by { if |p| == 2 { assert p[0] == s[0]; } }
    assert s[i - 3] == p[|p| - 3..][0] == ':';
  }

  /** After `http://` and a bare host, credentials, port and resource are all empty. */
  lemma BareRest(q: string, j: nat, k: nat, l: nat)
    requires IsBareHost(q) && 7 <= j <= k <= l <= |"http://" + q|
    requires var s := "http://" + q; IsUserInfo(s[7..j]) && IsPort(s[k..l]) && IsResource(s[l..])
    ensures j == 7 && k == |"http://" + q| && l == k
  {
    var s := "http://" + q;
  }

  /** `http://` is a scheme prefix. */
  lemma HttpScheme()
    ensures IsSchemePrefix("http://")
  {
    assert "http://"[4..] == "://" && "http://"[..4] == "http";
  }

  /**
   * For a bare host, the check prepends `http://` and accepts exactly a public dotted quad or a host name: no
   * other split of the text matches.
   */
  lemma BareHostDecides(q: string)
    requires IsBareHost(q)
    ensures Prepared(q) == "http://" + q
    ensures IsValidUrl(q) <==> (IsIpHost(q) && !Private(q)) || IsDomainHost(q)
  {
    PreparedBare(q);
    var s := "http://" + q;
    assert s[7..] == q && s[7..|s|] == q;
    if (IsIpHost(q) && !Private(q)) || IsDomainHost(q) {
      HttpScheme();
      assert s[..7] == "http://";
      assert MatchesAt(s, 7, 7, |s|, |s|);
    }
    if WebUrlRegexTest(s) {
      var i, j, k, l :| 0 <= i <= j <= k <= l <= |s| && MatchesAt(s, i, j, k, l);
      BareScheme(q, i);
      BareRest(q, j, k, l);
    }
  }

  /** A host name always holds a letter: its top-level label. */
  lemma DomainHasLetter(h: string)
    requires IsDomainHost(h)
    ensures exists k :: 0 <= k < |h| && IsTldChar(h[k])
  {
    var i :| 0 < i < |h| && IsLabels(h[..i]) && IsTld(h[i..]);
    assert IsTldChar(h[i..][0]);
  }

  /** A dotted quad in a private or local range is refused, however its octets are written. */
  lemma PrivateQuadRejected(q: string)
    requires |q| > 0 && forall k :: 0 <= k < |q| ==> IsDigit(q[k]) || q[k] == '.'
    requires Private(q)
    ensures !IsValidUrl(q)
  {
    BareHostDecides(q);
    if IsDomainHost(q) {
      DomainHasLetter(q);
    }
  }

  /** `example.com` is a host name. */
  lemma ExampleIsDomain()
    ensures IsDomainHost("example.com")
  {
    var h := "example.com";
    assert IsLabel(h[..8][..7]);
    assert IsLabels(h[..8]) by { assert h[..8][7] == '.'; }
    assert IsTld(h[8..]);
  }

  lemma ExampleBare()
    ensures IsBareHost("example.com")
  {
    var q := "example.com";
    forall k | 0 <= k < |q| ensures !IsJsSpace(q[k]) && !IsDelimiter(q[k]) {
      assert 'a' <= q[k] <= 'z' || q[k] == '.';
    }
  }

  /** A bare host name is accepted. */
  lemma DomainAccepted(q: string)
    requires IsBareHost(q) && IsDomainHost(q)
    ensures Prepared(q) == "http://" + q && IsValidUrl(q)
  {
    BareHostDecides(q);
  }

  /** `example.com` is accepted as `http://example.com`. */
  lemma ExampleAccepted()
    ensures IsValidUrl("example.com")
  {
    ExampleBare();
    ExampleIsDomain();
    DomainAccepted("example.com");
  }

  lemma PortAndPathPrepared()
    ensures Prepared("example.com:8080/a") == "http://" + "example.com" + ":8080" + "/a"
  {
    var t := "example.com:8080/a";
    assert !Contains(t, "://") by {
      forall i | 0 <= i <= |t| - 3 ensures !OccursAt(t, "://", i) {
        assert t[i..i + 3][0] == t[i] && t[i..i + 3][1] == t[i + 1];
      }
    }
    PreparedPlain(t);
  }

  /** Text with no white space at its ends and no `://` is prepared by prefixing `http://`. */
  lemma PreparedPlain(t: string)
    requires |t| > 0 && !IsJsSpace(t[0]) && !IsJsSpace(t[|t| - 1]) && !Contains(t, "://")
    ensures Prepared(t) == "http://" + t
  {
  }

  /** `http://`, a host name, a port and a resource split as the pattern's parts. */
  lemma HostPortPathSplit(h: string, port: string, path: string)
    requires IsDomainHost(h) && IsPort(port) && IsResource(path)
    ensures MatchesAt("http://" + h + port + path, 7, 7, 7 + |h|, 7 + |h| + |port|)
  {
    var s := "http://" + h + port + path;
    HttpScheme();
    assert s[..7] == "http://" && s[7..7] == [];
    assert s[7..7 + |h|] == h && s[7 + |h|..7 + |h| + |port|] == port && s[7 + |h| + |port|..] == path;
  }

  /** Text prepared to `http://`, a host name, a port and a resource is accepted. */
  lemma HostPortPathAccepted(t: string, h: string, port: string, path: string)
    requires Prepared(t) == "http://" + h + port + path
    requires IsDomainHost(h) && IsPort(port) && IsResource(path)
    ensures IsValidUrl(t)
  {
    HostPortPathSplit(h, port, path);
    MatchAccepts(t, "http://" + h + port + path, 7, 7, 7 + |h|, 7 + |h| + |port|);
  }

  lemma PortIsPort()
    ensures IsPort(":8080")
  {
    assert AllDigits(":8080"[1..]);
  }

  /** A host with a port and a path is accepted. */
  lemma PortAndPathAccepted()
    ensures IsValidUrl("example.com:8080/a")
  {
    PortAndPathPrepared();
    ExampleIsDomain();
    PortIsPort();
    HostPortPathAccepted("example.com:8080/a", "example.com", ":8080", "/a");
  }

  /** A scheme prefix starts with `/` or with the first letter of a scheme name. */
  lemma SchemeFirstChar(p: string)
    requires IsSchemePrefix(p)
    ensures |p| >= 2 && (p[0] == '/' || Lower(p[0]) == 'h' || Lower(p[0]) == 'f')
  {
    if p != "//" {
      var name := p[..|p| - 3];
      assert name[0] == p[0];
    }
  }

  /** A scheme other than http, https or ftp is refused: `mailto://a.com`. */
  lemma OtherSchemeRejected()
    ensures !IsValidUrl("mailto://a.com")
  {
    var s := "mailto://a.com";
    assert TrimStart(s) == s;
    assert OccursAt(s, "://", 6);
    assert Prepared(s) == s;
    forall i, j, k, l | 0 <= i <= j <= k <= l <= |s| && MatchesAt(s, i, j, k, l) ensures false {
      SchemeFirstChar(s[..i]);
    }
  }

  /** A top-level label with a digit is refused: `example.c0m`. */
  lemma DigitInTldRejected()
    ensures !IsValidUrl("example.c0m")
  {
    var q := "example.c0m";
    assert IsBareHost(q);
    BareHostDecides(q);
    assert !IsFirstOctet(q[..1]) && !IsFirstOctet(q[..2]) && !IsFirstOctet(q[..3]);
    forall i | 0 < i < |q| ensures !IsTld(q[i..]) {
      if i <= 9 {
        assert q[i..][9 - i] == '0';
      }
    }
  }

  /** Digits read in groups: a value never falls below the value of its own prefix. */
  lemma {:induction false} PrefixValue(t: string, n: nat)
    requires AllDigits(t) && n <= |t|
    ensures DigitsValue(t[..n]) <= DigitsValue(t)
    decreases |t| - n
  {
    if n < |t| {
      var init := t[..|t| - 1];
      PrefixValue(init, n);
      assert init[..n] == t[..n];
    } else {
      assert t[..n] == t;
    }
  }

  /** The value of a string of one to four digits, digit by digit. */
  lemma ShortValue(t: string)
    requires AllDigits(t) && 1 <= |t| <= 4
    ensures |t| == 1 ==> DigitsValue(t) == DigitValue(t[0])
    ensures |t| == 2 ==> DigitsValue(t) == 10 * DigitValue(t[0]) + DigitValue(t[1])
    ensures |t| == 3 ==> DigitsValue(t) == 100 * DigitValue(t[0]) + 10 * DigitValue(t[1]) + DigitValue(t[2])
    ensures |t| == 4 ==> DigitsValue(t) >= 1000 * DigitValue(t[0])
  {
    var a := t[..|t| - 1];
    if |t| >= 2 {
      var b := a[..|a| - 1];
      assert a[|a| - 1] == t[|t| - 2];
      if |t| >= 3 {
        var c := b[..|b| - 1];
        assert b[|b| - 1] == t[|t| - 3];
        if |t| == 4 {
          assert c[0] == t[0] && |c[..0]| == 0;
        }
      }
    }
  }

  /** A decimal numeral without a leading zero (a lone `0` allowed). */
  predicate IsNumeral(t: string)
  {
    |t| >= 1 && AllDigits(t) && (|t| == 1 || t[0] != '0')
  }

  /** More than three digits without a leading zero make at least 1000. */
  lemma LongNumeral(t: string)
    requires IsNumeral(t) && |t| >= 4
    ensures DigitsValue(t) >= 1000
  {
    PrefixValue(t, 4);
    ShortValue(t[..4]);
  }

  /** The first octet is exactly a numeral from 1 to 223. */
  lemma FirstOctetRange(t: string)
    ensures IsFirstOctet(t) <==> IsNumeral(t) && 1 <= DigitsValue(t) <= 223
  {
    if IsNumeral(t) {
      if |t| >= 4 { LongNumeral(t); } else { ShortValue(t); }
    }
    if IsFirstOctet(t) {
      ShortValue(t);
    }
  }

  /** The last octet is exactly a numeral from 1 to 254. */
  lemma LastOctetRange(t: string)
    ensures IsLastOctet(t) <==> IsNumeral(t) && 1 <= DigitsValue(t) <= 254
  {
    if IsNumeral(t) {
      if |t| >= 4 { LongNumeral(t); } else { ShortValue(t); }
    }
    if IsLastOctet(t) {
      ShortValue(t);
    }
  }

  /** A middle octet is one or two digits (leading zeros allowed), or a three-digit numeral up to 255. */
  lemma MidOctetRange(t: string)
    ensures IsMidOctet(t) <==>
      AllDigits(t) && (1 <= |t| <= 2 || (|t| == 3 && 100 <= DigitsValue(t) <= 255))
    ensures IsMidOctet(t) ==> DigitsValue(t) <= 255
  {
    if AllDigits(t) && 1 <= |t| <= 3 {
      ShortValue(t);
    }
  }

  /** An accepted dotted quad has first octet 1 to 223 and last octet 1 to 254, and each middle one at most 255. */
  lemma IpHostOctets(h: string, a: nat, b: nat, c: nat)
    requires a < b < c < |h| && IpSplit(h, a, b, c)
    ensures 1 <= DigitsValue(h[..a]) <= 223 && 1 <= DigitsValue(h[c + 1..]) <= 254
    ensures DigitsValue(h[a + 1..b]) <= 255 && DigitsValue(h[b + 1..c]) <= 255
  {
    FirstOctetRange(h[..a]);
    LastOctetRange(h[c + 1..]);
    MidOctetRange(h[a + 1..b]);
    MidOctetRange(h[b + 1..c]);
  }
}
