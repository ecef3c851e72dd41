/** Conflict policies for a row that a pull brings. */
module SyncPolicy {
  import opened Wrappers
  import opened VersionCodec
  import opened Buckets

  datatype Side = KeepLocal | TakeRemote

  /** The fields a resolver may compare. */
  datatype Candidate = Candidate(id: Id, version: int64, updatedAt: int64)

  datatype Resolver = LastWriteWins | ServerAuthoritative | ClientAuthoritative

  function Resolve(r: Resolver, local: Candidate, remote: Candidate): Side {
    match r
    case LastWriteWins => if remote.updatedAt > local.updatedAt then TakeRemote else KeepLocal
    case ServerAuthoritative => TakeRemote
    case ClientAuthoritative => KeepLocal
  }

  function NewResolver(policy: string): Option<Resolver> {
    if policy == "last-write-wins" || policy == "" then Some(LastWriteWins)
    else if policy == "server-authoritative" then Some(ServerAuthoritative)
    else if policy == "client-authoritative" then Some(ClientAuthoritative)
    else None
  }
}
