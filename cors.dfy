/**
 * The server's cross-origin policy: the allowed origins are read from the
 * comma-separated CLIENT_ORIGIN setting, and the HTTP CORS check admits a
 * request without an Origin header or from a listed origin.
 */
module Cors {
  import opened JsString

  /** The value CLIENT_ORIGIN takes when the environment does not set it. */
  const DefaultClientOrigin: string := "http://localhost:3000"

  /** `.map(s => s.trim())` */
  function TrimAll(parts: seq<string>): (r: seq<string>)
    ensures |r| == |parts|
    ensures forall i :: 0 <= i < |parts| ==> r[i] == Trim(parts[i])
  {
    if parts == [] then [] else [Trim(parts[0])] + TrimAll(parts[1..])
  }

  /** `.filter(Boolean)` on strings: drops the empty ones and keeps the rest in order. */
  function NonEmpty(parts: seq<string>): (r: seq<string>)
    ensures forall x :: x in r <==> x in parts && x != ""
    ensures |r| <= |parts|
  {
    if parts == [] then []
    else
      assert parts == [parts[0]] + parts[1..];
      (if parts[0] == "" then [] else [parts[0]]) + NonEmpty(parts[1..])
  }

  /** `CLIENT_ORIGIN.split(',').map(s => s.trim()).filter(Boolean)` */
  function AllowedOrigins(clientOrigin: string): seq<string>
  {
    NonEmpty(TrimAll(Split(clientOrigin, ',')))
  }

  /** o is the non-empty trimmed form of one of the parts. */
  ghost predicate TrimmedEntry(o: string, parts: seq<string>)
  {
    o != "" && exists i :: 0 <= i < |parts| && o == Trim(parts[i])
  }

  /** The cleaned entries are the non-empty trimmed parts, and each is trimmed and free of `c` when the parts are. */
  lemma CleanedEntries(parts: seq<string>, c: char)
    requires forall i :: 0 <= i < |parts| ==> c !in parts[i]
    ensures forall o :: o in NonEmpty(TrimAll(parts)) <==> TrimmedEntry(o, parts)
    ensures forall o :: o in NonEmpty(TrimAll(parts)) ==> IsTrimmed(o) && c !in o
  {
    var trimmed := TrimAll(parts);
    forall o | o in NonEmpty(trimmed)
      ensures exists i :: 0 <= i < |parts| && o == Trim(parts[i])
      ensures c !in o
    {
      var i :| 0 <= i < |trimmed| && trimmed[i] == o;
      TrimKeepsAbsent(parts[i], c);
    }
    forall o | TrimmedEntry(o, parts) ensures o in NonEmpty(trimmed) {
      var i :| 0 <= i < |parts| && o == Trim(parts[i]);
      assert trimmed[i] == o;
    }
  }

  /** Trimming never introduces a character. */
  lemma TrimKeepsAbsent(s: string, c: char)
    requires c !in s
    ensures c !in Trim(s)
  {
    var k := TrimIsSlice(s);
  }

  /**
   * An origin is allowed exactly when it is the trimmed form of one of the
   * comma-separated entries and is not empty; so every allowed origin is
   * non-empty, has no surrounding whitespace and holds no comma.
   */
  lemma AllowedOriginsSpec(clientOrigin: string)
    ensures forall o :: o in AllowedOrigins(clientOrigin) <==> TrimmedEntry(o, Split(clientOrigin, ','))
    ensures forall o :: o in AllowedOrigins(clientOrigin) ==> o != "" && IsTrimmed(o) && ',' !in o
  {
    var parts := Split(clientOrigin, ',');
    assert AllowedOrigins(clientOrigin) == NonEmpty(TrimAll(parts));
    CleanedEntries(parts, ',');
  }

  /** A setting without a comma holds a single entry. */
  lemma {:induction false} SplitWithoutSeparator(s: string, sep: char)
    requires sep !in s
    ensures Split(s, sep) == [s]
  {
    if s != [] {
      SplitWithoutSeparator(s[1..], sep);
      assert s == [s[0]] + s[1..];
    }
  }

  /** A setting with a single clean entry allows exactly that origin. */
  lemma SingleOrigin(clientOrigin: string)
    requires clientOrigin != "" && IsTrimmed(clientOrigin) && ',' !in clientOrigin
    ensures AllowedOrigins(clientOrigin) == [clientOrigin]
  {
    SplitWithoutSeparator(clientOrigin, ',');
    TrimOfTrimmed(clientOrigin);
    assert TrimAll([clientOrigin]) == [clientOrigin];
  }

  /** With CLIENT_ORIGIN unset, only the local development client is allowed. */
  lemma DefaultAllowedOrigins()
    ensures AllowedOrigins(DefaultClientOrigin) == [DefaultClientOrigin]
  {
    var s := DefaultClientOrigin;
    assert s[0] == 'h' && s[|s| - 1] == '0';
    SingleOrigin(s);
  }

  datatype CorsDecision = Allow | Block(error: string)

  /**
   * The `origin` callback of the HTTP CORS middleware. A missing Origin header
   * (requests from curl or similar tools) is represented by "".
   */
  function CheckOrigin(origin: string, allowed: seq<string>): (d: CorsDecision)
    ensures d.Allow? <==> origin == "" || origin in allowed
    ensures d.Block? ==> d.error == "CORS blocked for " + origin
  {
    if origin == "" then Allow
    else if origin in allowed then Allow
    else Block("CORS blocked for " + origin)
  }

  /**
   * Entries are compared after trimming, so an Origin header that itself
   * carries surrounding whitespace is never admitted.
   */
  lemma PaddedOriginBlocked(origin: string, clientOrigin: string)
    requires origin != "" && !IsTrimmed(origin)
    ensures CheckOrigin(origin, AllowedOrigins(clientOrigin)) == Block("CORS blocked for " + origin)
  {
    AllowedOriginsSpec(clientOrigin);
  }
}
