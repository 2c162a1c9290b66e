/** Who is calling: an authenticated user, identified by the id the auth
    provider returns for the bearer token, or otherwise a guest identified
    by the first entry of `x-forwarded-for` (or "unknown"). Both endpoints
    run the same rule before rate limiting. */
module Identity {
  import opened Common

  datatype IdentifierType = User | Ip

  datatype Caller = Caller(identifier: string, identifierType: IdentifierType)

  const BearerPrefix: string := "Bearer "
  const UnknownIdentifier: string := "unknown"

  predicate OccursAt(s: string, pat: string, i: nat) {
    i + |pat| <= |s| && s[i..i + |pat|] == pat
  }

  /** Index of the first occurrence of a non-empty pattern, or -1. */
  function IndexOf(s: string, pat: string, from: nat): (r: int)
    requires |pat| > 0
    requires from <= |s|
    ensures r == -1 <==> forall i :: from <= i <= |s| ==> !OccursAt(s, pat, i)
    ensures r != -1 ==> from <= r <= |s| - |pat| && OccursAt(s, pat, r)
    ensures r != -1 ==> forall i :: from <= i < r ==> !OccursAt(s, pat, i)
    decreases |s| - from
  {
    if from + |pat| > |s| then -1
    else if OccursAt(s, pat, from) then from
    else IndexOf(s, pat, from + 1)
  }

  /** `pat` occurs at `i` and nowhere before it. */
  predicate FirstOccurrence(s: string, pat: string, i: nat) {
    OccursAt(s, pat, i) && forall j :: 0 <= j < i ==> !OccursAt(s, pat, j)
  }

  /** `s.replace(pat, "")`: JavaScript replaces only the first occurrence
      of a string pattern. */
  function RemoveFirst(s: string, pat: string): (r: string)
    requires |pat| > 0
    ensures (forall i :: 0 <= i <= |s| ==> !OccursAt(s, pat, i)) ==> r == s
    ensures (exists i :: 0 <= i <= |s| && OccursAt(s, pat, i)) ==>
              exists i: nat :: FirstOccurrence(s, pat, i) && i + |pat| <= |s| && r == s[..i] + s[i + |pat|..]
    ensures (exists i :: 0 <= i <= |s| && OccursAt(s, pat, i)) ==> |r| == |s| - |pat|
  {
    var i := IndexOf(s, pat, 0);
    if i == -1 then s
    else
      var r := s[..i] + s[i + |pat|..];
      assert FirstOccurrence(s, pat, i);
      r
  }

  /** The token sent to the auth provider: `authHeader.replace('Bearer ', '')`. */
  function BearerToken(header: string): (t: string)
    ensures |t| <= |header|
    ensures (forall i :: 0 <= i <= |header| ==> !OccursAt(header, BearerPrefix, i)) ==> t == header
  {
    RemoveFirst(header, BearerPrefix)
  }

  /** A well-formed `Bearer <jwt>` header yields exactly the jwt. */
  lemma BearerTokenOfWellFormedHeader(jwt: string)
    ensures BearerToken(BearerPrefix + jwt) == jwt
  {
    var h := BearerPrefix + jwt;
    assert OccursAt(h, BearerPrefix, 0);
    assert IndexOf(h, BearerPrefix, 0) == 0;
  }

  /** `s.split(',')[0]`: everything before the first comma. */
  function FirstField(s: string): (r: string)
    ensures |r| <= |s| && r == s[..|r|]
    ensures forall i :: 0 <= i < |r| ==> r[i] != ','
    ensures |r| < |s| ==> s[|r|] == ','
  {
    if s == [] || s[0] == ',' then [] else [s[0]] + FirstField(s[1..])
  }

  /** The first field of a proxy chain `client, proxy1, ...` is the client. */
  lemma {:induction false} FirstFieldOfChain(client: string, rest: string)
    requires forall i :: 0 <= i < |client| ==> client[i] != ','
    ensures FirstField(client + "," + rest) == client
  {
    if client != [] {
      assert (client + "," + rest)[1..] == client[1..] + "," + rest;
      FirstFieldOfChain(client[1..], rest);
    }
  }

  /** The guest identifier: a present, non-empty `x-forwarded-for` header
      gives its first field, anything else the literal "unknown". */
  function GuestIdentifier(forwardedFor: Option<string>): (id: string)
    ensures forwardedFor.None? || forwardedFor.value == "" ==> id == UnknownIdentifier
    ensures forwardedFor.Some? && forwardedFor.value != "" ==>
              id <= forwardedFor.value && (|id| < |forwardedFor.value| ==> forwardedFor.value[|id|] == ',')
  {
    if forwardedFor.Some? && forwardedFor.value != "" then FirstField(forwardedFor.value)
    else UnknownIdentifier
  }

  /** The identity rule of both handlers. An empty `authorization` header is
      falsy in JavaScript and counts as absent; `getUser` stands for the
      auth provider, giving the user id for a valid token. */
  function ResolveCaller(authorization: Option<string>, forwardedFor: Option<string>,
                         getUser: string -> Option<string>): (c: Caller)
    ensures c.identifierType == User <==>
              authorization.Some? && authorization.value != "" && getUser(BearerToken(authorization.value)).Some?
    ensures c.identifierType == User ==> c.identifier == getUser(BearerToken(authorization.value)).value
    ensures c.identifierType == Ip ==> c.identifier == GuestIdentifier(forwardedFor)
  {
    if authorization.Some? && authorization.value != "" then
      match getUser(BearerToken(authorization.value))
      case Some(id) => Caller(id, User)
      case None => Caller(GuestIdentifier(forwardedFor), Ip)
    else
      Caller(GuestIdentifier(forwardedFor), Ip)
  }

  /** A missing header and a token the provider rejects land in the same
      guest bucket: leaving out credentials gains nothing. */
  lemma InvalidTokenSameAsNoToken(header: string, forwardedFor: Option<string>,
                                  getUser: string -> Option<string>)
    requires getUser(BearerToken(header)).None?
    ensures ResolveCaller(Some(header), forwardedFor, getUser) == ResolveCaller(None, forwardedFor, getUser)
  {
  }

  /** A guest's identifier never contains a comma, and is a prefix of the
      forwarded-for header when one was sent. */
  lemma GuestIdentifierShape(forwardedFor: Option<string>)
    ensures forall i :: 0 <= i < |GuestIdentifier(forwardedFor)| ==> GuestIdentifier(forwardedFor)[i] != ','
    ensures forwardedFor.Some? && forwardedFor.value != "" ==>
              GuestIdentifier(forwardedFor) <= forwardedFor.value
  {
  }
}
