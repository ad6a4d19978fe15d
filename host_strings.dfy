/** The string helpers of src/utils/strings.rs: the base url derived from the `host` header, and random keys. */
module HostStrings {
  import opened Wrappers
  import opened Seqs

  const LocalHost := "localhost:8080"
  const HostMissing := "host header not found"
  const HostNotText := "host header couldn't be converted to string"

  /** A header value `to_str` accepts: visible ASCII characters and tabs only. */
  function VisibleAscii(v: string): (ok: bool)
    ensures ok ==> forall k :: 0 <= k < |v| ==> (v[k] as int) < 0x80 && v[k] != '\r' && v[k] != '\n'
  {
    forall k :: 0 <= k < |v| ==> (' ' <= v[k] <= '~' || v[k] == '\t')
  }

  /**
   * `get_host_header`: the local development host maps to its plain-http root, any other host to the https
   * root of that host. A missing header, or one that is not visible ASCII, is a panic, shown as a `Failure`
   * carrying the panic message.
   */
  function GetHostHeader(host: Option<string>): (r: Result<string>)
    ensures host.None? ==> r == Failure(HostMissing)
    ensures host.Some? && !VisibleAscii(host.value) ==> r == Failure(HostNotText)
    ensures r.Success? <==> host.Some? && VisibleAscii(host.value)
    ensures r.Success? ==> |r.value| > 0 && r.value[|r.value| - 1] == '/'
    ensures r.Success? && host.value == LocalHost ==> r.value == "http://localhost:8080/"
    ensures r.Success? && host.value != LocalHost ==> r.value == "https://" + host.value + "/"
    ensures r.Success? ==> |host.value| < |r.value| && r.value[|r.value| - |host.value| - 1..|r.value| - 1] == host.value
  {
    match host
    case None => Failure(HostMissing)
    case Some(h) =>
      if !VisibleAscii(h) then Failure(HostNotText)
      else if h == LocalHost then
        assert "http://localhost:8080/" == "http://" + h + "/";
        Success("http://localhost:8080/")
      else Success("https://" + h + "/")
  }

  /** `Alphanumeric` draws from the ASCII letters and digits. */
  predicate IsAlphanumeric(c: char)
  {
    IsLowerOrDigit(c) || 'A' <= c <= 'Z'
  }

  predicate IsLowerOrDigit(c: char)
  {
    'a' <= c <= 'z' || '0' <= c <= '9'
  }

  /**
   * `generate_random_string`: from the stream of random alphanumeric samples, keep the lower-case letters and
   * digits and take the first `length` of them. `samples` is the part of the random stream that is drawn.
   */
  function GenerateRandomString(length: nat, samples: seq<char>): (s: string)
    requires forall k :: 0 <= k < |samples| ==> IsAlphanumeric(samples[k])
    ensures |s| <= length
    ensures forall k :: 0 <= k < |s| ==> IsLowerOrDigit(s[k])
    ensures |s| == length <==> Count(samples, IsLowerOrDigit) >= length
  {
    FilterLength(samples, IsLowerOrDigit);
    Take(Filter(samples, IsLowerOrDigit), length)
  }

  /** Every key of lower-case letters and digits is a possible result: the one drawn as exactly those samples. */
  lemma EveryKeyReachable(key: string)
    requires forall k :: 0 <= k < |key| ==> IsLowerOrDigit(key[k])
    ensures GenerateRandomString(|key|, key) == key
  {
    FilterAllKept(key, IsLowerOrDigit);
  }

  /** Upper-case samples are skipped: they neither appear in the key nor use up its length. */
  lemma UpperCaseSkipped(length: nat, samples: seq<char>, c: char)
    requires forall k :: 0 <= k < |samples| ==> IsAlphanumeric(samples[k])
    requires 'A' <= c <= 'Z'
    ensures GenerateRandomString(length, [c] + samples) == GenerateRandomString(length, samples)
  {
    FilterCons(c, samples, IsLowerOrDigit);
    FilterLength(samples, IsLowerOrDigit);
    FilterLength([c] + samples, IsLowerOrDigit);
  }
}
