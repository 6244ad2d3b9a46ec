/** The two numeric enums of the seed script and the integers they store.

    A TypeScript numeric enum numbers its members from 0 in declaration
    order, and the tenant-membership table stores that number, so each enum
    comes with its encoding and a decoder that inverts it. */
module Enums {
  import opened Wrappers

  /** Where a tenant membership stands in its invitation lifecycle. */
  datatype TenantUserStatus = PendingInvitation | PendingAcceptance | Active | Inactive

  /** How a user came to belong to a tenant. */
  datatype TenantUserJoined = Creator | JoinedByInvitation | JoinedByLink | JoinedByPublicUrl

  /** The stored value of a status: its position in the declaration. */
  function StatusCode(s: TenantUserStatus): (c: nat)
    ensures c < 4
    ensures StatusOfCode(c) == Some(s)
  {
    match s
    case PendingInvitation => 0
    case PendingAcceptance => 1
    case Active => 2
    case Inactive => 3
  }

  /** Reads a stored status back; only the four declared positions decode. */
  function StatusOfCode(c: int): (r: Option<TenantUserStatus>)
    ensures r.Some? <==> 0 <= c < 4
  {
    if c == 0 then Some(PendingInvitation)
    else if c == 1 then Some(PendingAcceptance)
    else if c == 2 then Some(Active)
    else if c == 3 then Some(Inactive)
    else None
  }

  /** The stored value of a join method: its position in the declaration. */
  function JoinedCode(j: TenantUserJoined): (c: nat)
    ensures c < 4
    ensures JoinedOfCode(c) == Some(j)
  {
    match j
    case Creator => 0
    case JoinedByInvitation => 1
    case JoinedByLink => 2
    case JoinedByPublicUrl => 3
  }

  /** Reads a stored join method back; only the four declared positions decode. */
  function JoinedOfCode(c: int): (r: Option<TenantUserJoined>)
    ensures r.Some? <==> 0 <= c < 4
  {
    if c == 0 then Some(Creator)
    else if c == 1 then Some(JoinedByInvitation)
    else if c == 2 then Some(JoinedByLink)
    else if c == 3 then Some(JoinedByPublicUrl)
    else None
  }

  /** Decoding a valid stored status and encoding it again gives back the stored value. */
  lemma StatusCodeRoundTrip(c: int)
    requires 0 <= c < 4
    ensures StatusOfCode(c).Some? && StatusCode(StatusOfCode(c).value) == c
  {
  }

  /** Decoding a valid stored join method and encoding it again gives back the stored value. */
  lemma JoinedCodeRoundTrip(c: int)
    requires 0 <= c < 4
    ensures JoinedOfCode(c).Some? && JoinedCode(JoinedOfCode(c).value) == c
  {
  }

  /** The two values every seeded membership carries. */
  lemma SeededCodes()
    ensures JoinedCode(Creator) == 0
    ensures StatusCode(Active) == 2
  {
  }
}
