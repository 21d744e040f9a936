/** The two string helpers of app/config.py: the database URL scheme rewrite and
    the API base URL. The environment lookup of the API host becomes a parameter. */
module Config {
  import opened Wrappers

  const PostgresScheme := "postgres://"
  const AsyncpgScheme := "postgresql+asyncpg://"

  /** sanitize_db_url: rewrite a leading `postgres://` to the asyncpg driver scheme. */
  function SanitizeDbUrl(dbUrl: string): (r: string)
    ensures PostgresScheme <= dbUrl ==> r == AsyncpgScheme + dbUrl[|PostgresScheme|..]
    ensures !(PostgresScheme <= dbUrl) ==> r == dbUrl
    ensures !(PostgresScheme <= r)
  {
    if PostgresScheme <= dbUrl then
      // `replace(old, new, 1)` on a string that starts with `old` rewrites that prefix
      var r := AsyncpgScheme + dbUrl[|PostgresScheme|..];
      assert r[8] == AsyncpgScheme[8] == 'q' != PostgresScheme[8];
      r
    else
      dbUrl
  }

  /** A second sanitization changes nothing. */
  lemma SanitizeIdempotent(dbUrl: string)
    ensures SanitizeDbUrl(SanitizeDbUrl(dbUrl)) == SanitizeDbUrl(dbUrl)
  {
  }

  // ---------------------------------------------------------------------------
  // API URL

  const DefaultApiHost := "localhost"

  function DigitChar(d: nat): (c: char)
    requires d < 10
    ensures '0' <= c <= '9'
  {
    (48 + d) as char
  }

  /** Python's `str(n)` for a natural number: decimal digits, no leading zero. */
  function NatToDecimal(n: nat): (s: string)
    ensures |s| >= 1
    ensures forall i | 0 <= i < |s| :: '0' <= s[i] <= '9'
    ensures n > 0 ==> s[0] != '0'
    decreases n
  {
    if n < 10 then [DigitChar(n)] else NatToDecimal(n / 10) + [DigitChar(n % 10)]
  }

  /** The number a string of decimal digits denotes. */
  function DecimalValue(s: string): nat
    requires forall i | 0 <= i < |s| :: '0' <= s[i] <= '9'
  {
    if |s| == 0 then 0 else DecimalValue(s[..|s| - 1]) * 10 + (s[|s| - 1] as int - 48)
  }

  /** Reading back the digits of a number gives the number. */
  lemma {:induction false} DecimalRoundTrip(n: nat)
    ensures DecimalValue(NatToDecimal(n)) == n
    decreases n
  {
    if n >= 10 {
      var s := NatToDecimal(n);
      assert s[..|s| - 1] == NatToDecimal(n / 10);
      DecimalRoundTrip(n / 10);
    }
  }

  /** The port rule: 8000 on localhost, 80 anywhere else. */
  function ApiPort(host: string): (port: nat)
    ensures port == 8000 || port == 80
    ensures port == 8000 <==> host == DefaultApiHost
  {
    if host == DefaultApiHost then 8000 else 80
  }

  /** get_api_url, with the `API_HOST` environment entry as a parameter. */
  function ApiUrl(apiHost: Option<string>): (url: string)
    ensures var host := if apiHost.Some? then apiHost.value else DefaultApiHost;
      && (host == DefaultApiHost ==> url == "http://localhost:8000")
      && (host != DefaultApiHost ==> url == "http://" + host + ":80")
  {
    var host := match apiHost case Some(h) => h case None => DefaultApiHost;
    assert NatToDecimal(80) == "80" by {
      assert NatToDecimal(8) == "8";
    }
    assert NatToDecimal(8000) == "8000" by {
      assert NatToDecimal(8) == "8";
      assert NatToDecimal(80) == "80";
      assert NatToDecimal(800) == "800";
    }
    "http://" + host + ":" + NatToDecimal(ApiPort(host))
  }

  /** The port at the end of the URL reads back as the port the rule chose. */
  lemma ApiUrlEndsWithPort(host: string)
    ensures var url := ApiUrl(Some(host));
      var digits := NatToDecimal(ApiPort(host));
      && |url| == |"http://" + host + ":"| + |digits|
      && url[..|"http://" + host + ":"|] == "http://" + host + ":"
      && DecimalValue(url[|"http://" + host + ":"|..]) == ApiPort(host)
  {
    var prefix := "http://" + host + ":";
    var url := ApiUrl(Some(host));
    assert url == prefix + NatToDecimal(ApiPort(host));
    assert url[|prefix|..] == NatToDecimal(ApiPort(host));
    DecimalRoundTrip(ApiPort(host));
  }
}
