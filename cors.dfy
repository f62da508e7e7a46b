/** The CORS `origin` callback of `setupMiddleware`: which request origins
    the API answers. */
module Cors {
  import opened Strings
  import opened Wrappers

  /** The two deployed frontends, staging and production. */
  const AllowedOrigins: seq<string> := ["https://boson-app.vercel.app", "https://ops.waters.co.in"]

  const LocalhostPrefix: string := "http://localhost"

  /** `/^http:\/\/localhost(:\d+)?$/`: plain-HTTP localhost, optionally with a
      port of one or more ASCII digits. */
  predicate IsLocalhost(origin: string) {
    StartsWith(origin, LocalhostPrefix) &&
    var port := origin[|LocalhostPrefix|..];
    port == [] || (|port| >= 2 && port[0] == ':' && AllDigits(port[1..]))
  }

  const NotAllowedMessage: string := "Not allowed by CORS"

  /** The callback's verdict: `Ok(true)` for an allowed origin, otherwise the
      error it is called with. An absent origin (non-browser clients) is
      `None`; `""` is falsy and allowed as well. */
  function CheckOrigin(origin: Option<string>): (r: Result<bool, string>)
    ensures r == Ok(true) || r == Err(NotAllowedMessage)
    ensures r.Ok? <==>
      (origin.None? || origin.value == "" || origin.value in AllowedOrigins || IsLocalhost(origin.value))
  {
    if origin.None? || origin.value == "" || origin.value in AllowedOrigins || IsLocalhost(origin.value)
    then Ok(true)
    else Err(NotAllowedMessage)
  }

  /** Every port number on localhost is allowed. */
  lemma LocalhostAnyPort(port: nat)
    ensures CheckOrigin(Some(LocalhostPrefix + ":" + NatToString(port))) == Ok(true)
  {
    var o := LocalhostPrefix + ":" + NatToString(port);
    assert o[..|LocalhostPrefix|] == LocalhostPrefix;
    assert o[|LocalhostPrefix|..] == ":" + NatToString(port);
    assert o[|LocalhostPrefix|..][1..] == NatToString(port);
  }

  /** An allowed, non-empty origin that is not a listed frontend is plain
      HTTP on localhost, with nothing after the host but a `:port`. */
  lemma AllowedOtherOriginIsLocalhost(o: string)
    requires CheckOrigin(Some(o)).Ok? && o != "" && o !in AllowedOrigins
    ensures StartsWith(o, LocalhostPrefix)
    ensures |o| == |LocalhostPrefix| || (o[|LocalhostPrefix|] == ':' && IsDigit(o[|o| - 1]))
  {
    if |o| > |LocalhostPrefix| {
      var port := o[|LocalhostPrefix|..];
      assert port[1..][|port| - 2] == o[|o| - 1];
    }
  }

  /** HTTPS on localhost and a frontend with a trailing `/` are rejected:
      neither is a listed origin nor starts with `http://localhost`. */
  lemma RejectedOrigins()
    ensures CheckOrigin(Some("https://localhost")).Err?
    ensures CheckOrigin(Some("https://localhost:3000")).Err?
    ensures CheckOrigin(Some("https://ops.waters.co.in/")).Err?
  {
    assert !StartsWith("https://localhost", LocalhostPrefix) by {
      assert "https://localhost"[4] != LocalhostPrefix[4];
    }
    assert !StartsWith("https://localhost:3000", LocalhostPrefix) by {
      assert "https://localhost:3000"[4] != LocalhostPrefix[4];
    }
    assert !StartsWith("https://ops.waters.co.in/", LocalhostPrefix) by {
      assert "https://ops.waters.co.in/"[4] != LocalhostPrefix[4];
    }
  }

  /** An empty port, a named port and a look-alike host are rejected. */
  lemma RejectedLocalhostLookalikes()
    ensures CheckOrigin(Some("http://localhost:")).Err?
    ensures CheckOrigin(Some("http://localhost:dev")).Err?
    ensures CheckOrigin(Some("http://localhost.example.com")).Err?
  {
    assert "http://localhost:dev"[|LocalhostPrefix|..][1..][0] == 'd';
    assert "http://localhost.example.com"[|LocalhostPrefix|..][0] == '.';
  }

  /** The two frontends and an absent origin are allowed. */
  lemma AllowedOriginsPass()
    ensures CheckOrigin(None) == Ok(true)
    ensures CheckOrigin(Some("")) == Ok(true)
    ensures CheckOrigin(Some("https://boson-app.vercel.app")) == Ok(true)
    ensures CheckOrigin(Some("https://ops.waters.co.in")) == Ok(true)
  {
  }
}
