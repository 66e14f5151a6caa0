/**
 * Extraction of the client's network address from a request (getClientIP in main.go).
 * The request is reduced to the two strings the Go code reads: the value of the
 * X-Forwarded-For header ("" when the header is absent, as Header.Get returns) and
 * the transport peer address RemoteAddr. The model works on characters where Go works
 * on bytes: an index differs when a non-ASCII character precedes the separator, but both
 * separators are ASCII, so the prefix that is cut off is the same. Header bytes that
 * are not valid UTF-8 have no counterpart here.
 */
module ClientAddress {

  /** Position of the first `c` in `s`, or -1 (strings.Index with a one-character separator). */
  function IndexOf(s: string, c: char): (r: int)
    ensures -1 <= r < |s|
    ensures r == -1 <==> c !in s
    ensures 0 <= r ==> s[r] == c && c !in s[..r]
    decreases |s|
  {
    if |s| == 0 then -1
    else if s[0] == c then 0
    else
      var k := IndexOf(s[1..], c);
      if k == -1 then -1 else k + 1
  }

  /** Position of the last `c` in `s`, or -1 (strings.LastIndex with a one-character separator). */
  function LastIndexOf(s: string, c: char): (r: int)
    ensures -1 <= r < |s|
    ensures r == -1 <==> c !in s
    ensures 0 <= r ==> s[r] == c && c !in s[r + 1..]
    decreases |s|
  {
    if |s| == 0 then -1
    else if s[|s| - 1] == c then |s| - 1
    else
      var k := LastIndexOf(s[..|s| - 1], c);
      if k == -1 then -1 else k
  }

  /** The first element of strings.Split(s, ","): everything before the first comma. */
  function FirstField(s: string): (r: string)
    ensures r <= s && ',' !in r
    ensures r == s || s[|r|] == ','
  {
    var i := IndexOf(s, ',');
    if i == -1 then s else s[..i]
  }

  /** The address the handlers geolocate: the first forwarded entry, else the peer address without its port. */
  function ClientIP(forwardedFor: string, remoteAddr: string): (ip: string)
    // a forwarded header wins: its prefix up to the first comma, untrimmed
    ensures forwardedFor != "" ==>
      && ip <= forwardedFor
      && ',' !in ip
      && (ip == forwardedFor || forwardedFor[|ip|] == ',')
    // otherwise the peer address, cut just before its last colon
    ensures forwardedFor == "" ==>
      && ip <= remoteAddr
      && (':' !in remoteAddr ==> ip == remoteAddr)
      && (':' in remoteAddr ==> |ip| < |remoteAddr| && remoteAddr[|ip|] == ':' && ':' !in remoteAddr[|ip| + 1..])
  {
    if forwardedFor != "" then
      FirstField(forwardedFor)
    else
      var colon := LastIndexOf(remoteAddr, ':');
      if colon != -1 then remoteAddr[..colon] else remoteAddr
  }
}
