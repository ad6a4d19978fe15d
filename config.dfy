/**
 * Configuration read from the process environment (src/utils/env.rs). The environment is a map from variable
 * name to value; a getter that panics on a missing variable is a `Failure` carrying the panic message.
 */
module Config {
  import opened Wrappers
  import opened Numerals

  type Env = map<string, string>

  newtype byte = x: int | 0 <= x < 256

  const DefaultPort: nat := 8080

  /**
   * `get_port`: `PORT` if it reads as a 16-bit number, else 8080. An unset `PORT` is replaced by the text of
   * 8080 before parsing, which reads back as 8080.
   */
  function GetPort(env: Env): (p: nat)
    ensures p <= U16Max
    ensures "PORT" !in env ==> p == DefaultPort
    ensures "PORT" in env && ParseU16(env["PORT"]).Some? ==> p == ParseU16(env["PORT"]).value
    ensures "PORT" in env && ParseU16(env["PORT"]).None? ==> p == DefaultPort
  {
    var port := if "PORT" in env then env["PORT"] else NatToDecimal(DefaultPort);
    ParseU16OfDecimal(DefaultPort);
    match ParseU16(port)
    case Some(v) => v
    case None => DefaultPort
  }

  /** Values of `PORT` that do not read as a 16-bit number fall back to 8080; a leading `+` is accepted. */
  lemma PortExamples(env: Env)
    ensures GetPort(env["PORT" := "abc"]) == DefaultPort
    ensures GetPort(env["PORT" := "65536"]) == DefaultPort
    ensures GetPort(env["PORT" := "-1"]) == DefaultPort
    ensures GetPort(env["PORT" := "+443"]) == 443
  {
    assert !IsDigit("abc"[0]);
    assert DigitsValue("65536") == 65536 by {
      assert "65536"[..4] == "6553" && "6553"[..3] == "655" && "655"[..2] == "65" && "65"[..1] == "6";
      assert "6"[..0] == "";
    }
    assert !IsDigit("-1"[0]);
    assert "+443"[1..] == "443";
    assert DigitsValue("443") == 443 by {
      assert "443"[..2] == "44" && "44"[..1] == "4" && "4"[..0] == "";
    }
  }

  /**
   * `get_host_uri`: the https url of `HOST` when set; else the fly.dev url of `FLY_APP_NAME` when set; else the
   * local url on the configured port.
   */
  function GetHostUri(env: Env): (u: string)
    ensures "HOST" in env ==> u == "https://" + env["HOST"]
    ensures "HOST" !in env && "FLY_APP_NAME" in env ==> u == "https://" + env["FLY_APP_NAME"] + ".fly.dev"
    ensures "HOST" !in env && "FLY_APP_NAME" !in env ==> u == "http://localhost:" + NatToDecimal(GetPort(env))
  {
    if "HOST" in env then "https://" + env["HOST"]
    else if "FLY_APP_NAME" in env then "https://" + env["FLY_APP_NAME"] + ".fly.dev"
    else "http://localhost:" + NatToDecimal(GetPort(env))
  }

  /** With no configuration at all the service describes itself as `http://localhost:8080`. */
  lemma HostUriDefault()
    ensures GetHostUri(map[]) == "http://localhost:8080"
  {
    assert NatToDecimal(8) == "8";
    assert NatToDecimal(80) == "80";
    assert NatToDecimal(808) == "808";
    assert NatToDecimal(8080) == "8080";
  }

  /** The local url's port reads back as the port `get_port` chose. */
  lemma HostUriPortReadsBack(env: Env)
    requires "HOST" !in env && "FLY_APP_NAME" !in env
    ensures var u := GetHostUri(env);
      |u| > 17 && u[..17] == "http://localhost:" && ParseU16(u[17..]) == Some(GetPort(env))
  {
    var u := GetHostUri(env);
    assert u[17..] == NatToDecimal(GetPort(env));
    ParseU16OfDecimal(GetPort(env));
  }

  datatype DiscordConfig = DiscordConfig(clientId: string, clientSecret: string)

  /** `get_discord_config`: both Discord credentials verbatim; the client id is read, and missed, first. */
  function GetDiscordConfig(env: Env): (r: Result<DiscordConfig>)
    ensures r.Success? <==> "DISCORD_CLIENT_ID" in env && "DISCORD_CLIENT_SECRET" in env
    ensures r.Success? ==> r.value == DiscordConfig(env["DISCORD_CLIENT_ID"], env["DISCORD_CLIENT_SECRET"])
    ensures "DISCORD_CLIENT_ID" !in env ==> r == Failure("DISCORD_CLIENT_ID not set")
    ensures "DISCORD_CLIENT_ID" in env && "DISCORD_CLIENT_SECRET" !in env ==>
      r == Failure("DISCORD_CLIENT_SECRET not set")
  {
    if "DISCORD_CLIENT_ID" !in env then Failure("DISCORD_CLIENT_ID not set")
    else if "DISCORD_CLIENT_SECRET" !in env then Failure("DISCORD_CLIENT_SECRET not set")
    else Success(DiscordConfig(env["DISCORD_CLIENT_ID"], env["DISCORD_CLIENT_SECRET"]))
  }

  /** A required variable: its value, or the panic message `<name> not set`. */
  function Required(env: Env, name: string): (r: Result<string>)
    ensures r.Success? <==> name in env
    ensures r.Success? ==> r.value == env[name]
    ensures r.Failure? ==> r.error == name + " not set"
  {
    if name in env then Success(env[name]) else Failure(name + " not set")
  }

  /** `get_cookie_encryption_key`. */
  function GetCookieEncryptionKey(env: Env): (r: Result<string>)
    ensures r == Required(env, "COOKIE_ENCRYPTION_KEY")
  {
    Required(env, "COOKIE_ENCRYPTION_KEY")
  }

  /** A required variable as bytes (`into_bytes`): its UTF-8 encoding, or the panic for an unset variable. */
  function RequiredBytes(env: Env, name: string): (r: Result<seq<byte>>)
    ensures r.Success? <==> name in env
    ensures r.Success? ==> r.value == Utf8Encode(env[name])
    ensures r.Failure? ==> r.error == name + " not set"
  {
    match Required(env, name)
    case Success(v) => Success(Utf8Encode(v))
    case Failure(e) => Failure(e)
  }

  /** `get_jwt_public`. */
  function GetJwtPublic(env: Env): Result<seq<byte>>
  {
    RequiredBytes(env, "JWT_SECRET_PUBLIC")
  }

  /** `get_jwt_private`. */
  function GetJwtPrivate(env: Env): Result<seq<byte>>
  {
    RequiredBytes(env, "JWT_SECRET_PRIVATE")
  }

  /** The UTF-8 bytes of one character: one byte below U+0080, then two, three or four. */
  function EncodeChar(c: char): (bs: seq<byte>)
    ensures 1 <= |bs| <= 4
    ensures |bs| == 1 <==> (c as int) < 0x80
    ensures |bs| == 1 ==> bs[0] as int == c as int
  {
    var n := c as int;
    if n < 0x80 then [n as byte]
    else if n < 0x800 then [(0xC0 + n / 0x40) as byte, (0x80 + n % 0x40) as byte]
    else if n < 0x10000 then
      [(0xE0 + n / 0x1000) as byte, (0x80 + n / 0x40 % 0x40) as byte, (0x80 + n % 0x40) as byte]
    else
      [(0xF0 + n / 0x40000) as byte, (0x80 + n / 0x1000 % 0x40) as byte,
       (0x80 + n / 0x40 % 0x40) as byte, (0x80 + n % 0x40) as byte]
  }

  /** `String::into_bytes`: the UTF-8 encoding. */
  function Utf8Encode(s: string): (bs: seq<byte>)
    ensures |s| <= |bs| <= 4 * |s|
  {
    if |s| == 0 then [] else EncodeChar(s[0]) + Utf8Encode(s[1..])
  }

  /** Text in ASCII, such as a PEM key, is encoded byte for byte. */
  lemma {:induction false} AsciiBytes(s: string)
    requires forall k :: 0 <= k < |s| ==> (s[k] as int) < 0x80
    ensures |Utf8Encode(s)| == |s|
    ensures forall k :: 0 <= k < |s| ==> Utf8Encode(s)[k] as int == s[k] as int
  {
    if |s| > 0 {
      AsciiBytes(s[1..]);
      assert Utf8Encode(s) == EncodeChar(s[0]) + Utf8Encode(s[1..]);
      forall k | 1 <= k < |s| ensures Utf8Encode(s)[k] as int == s[k] as int {
        assert Utf8Encode(s)[k] == Utf8Encode(s[1..])[k - 1];
        assert s[1..][k - 1] == s[k];
      }
    }
  }
}
