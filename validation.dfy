/** Authorization checks. Both only read storage and report `Unauthorized` (or
    `NotInitialized`) instead of failing the call themselves. */
module Validation {
  import opened Types
  import opened Host
  import Storage

  /** Succeeds exactly when an admin is stored and it is the caller. */
  function RequireAdmin(env: Env, caller: Address): (r: Result<()>)
    reads env
    ensures r.Ok? <==> env.admin == Some(caller)
    ensures env.admin.None? ==> r == Err(NotInitialized)
    ensures env.admin.Some? && env.admin.value != caller ==> r == Err(Unauthorized)
  {
    var admin :- Storage.GetAdmin(env);
    if caller != admin then Err(Unauthorized) else Ok(())
  }

  /** Succeeds exactly when the caller is a registered issuer. */
  function RequireIssuer(env: Env, caller: Address): (r: Result<()>)
    reads env
    ensures r.Ok? <==> caller in env.issuers
    ensures r.Err? ==> r.error == Unauthorized
  {
    if !Storage.IsIssuer(env, caller) then Err(Unauthorized) else Ok(())
  }
}
