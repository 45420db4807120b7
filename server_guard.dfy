/**
 * The two request guards of the form server: `restrictLookup`, which lets
 * only loopback clients through, and the bearer-token check in front of the
 * admin routes, which runs after it.
 */
module ServerGuard {
  import opened SeqUtil

  const MAPPED_PREFIX: string := "::ffff:"
  const LOOPBACK_V4: string := "127.0.0.1"
  const LOOPBACK_V6: string := "::1"
  const ADMIN_AUTH: string := "Bearer mysecretpassword"

  /** The middleware's outcome: `next()`, or an error status. */
  datatype Decision = Next | Reject(status: nat)

  /** `(req.socket.remoteAddress || "").replace(/^::ffff:/, "")`. */
  function NormalizeAddress(remote: Option<string>): (ip: string)
    ensures remote.None? ==> ip == ""
    ensures remote.Some? && MAPPED_PREFIX <= remote.value ==> ip == remote.value[|MAPPED_PREFIX|..]
    ensures remote.Some? && !(MAPPED_PREFIX <= remote.value) ==> ip == remote.value
  {
    var a := if remote.Some? then remote.value else "";
    if MAPPED_PREFIX <= a then a[|MAPPED_PREFIX|..] else a
  }

  /** `restrictLookup`: 403 unless the normalised address is a loopback address. */
  function RestrictLookup(remote: Option<string>): Decision {
    var ip := NormalizeAddress(remote);
    if ip != LOOPBACK_V4 && ip != LOOPBACK_V6 then Reject(403) else Next
  }

  /** `app.use("/admin", restrictLookup, ...)`: the address check, then the token check. */
  function AdminGuard(remote: Option<string>, authorization: Option<string>): Decision {
    var d := RestrictLookup(remote);
    if d.Reject? then d
    else if authorization != Some(ADMIN_AUTH) then Reject(401)
    else Next
  }

  /**
   * A request passes `restrictLookup` exactly when its address, as the
   * socket reports it, is one of four strings; every other request gets 403.
   */
  lemma RestrictLookupAccepts(remote: Option<string>)
    ensures RestrictLookup(remote) == Next <==>
      remote in {Some(LOOPBACK_V4), Some(LOOPBACK_V6), Some(MAPPED_PREFIX + LOOPBACK_V4), Some(MAPPED_PREFIX + LOOPBACK_V6)}
    ensures RestrictLookup(remote) != Next ==> RestrictLookup(remote) == Reject(403)
  {
    if remote.Some? {
      var a := remote.value;
      var m4, m6 := MAPPED_PREFIX + LOOPBACK_V4, MAPPED_PREFIX + LOOPBACK_V6;
      assert MAPPED_PREFIX <= m4 && m4[|MAPPED_PREFIX|..] == LOOPBACK_V4;
      assert MAPPED_PREFIX <= m6 && m6[|MAPPED_PREFIX|..] == LOOPBACK_V6;
      assert LOOPBACK_V4[0] != MAPPED_PREFIX[0] && |LOOPBACK_V6| < |MAPPED_PREFIX|;
      if MAPPED_PREFIX <= a {
        assert a == MAPPED_PREFIX + a[|MAPPED_PREFIX|..];
        assert a != LOOPBACK_V4 && a != LOOPBACK_V6;
      } else {
        assert a != m4 && a != m6;
      }
    }
  }

  /** An IPv4-mapped loopback client and an IPv6 loopback client pass; a missing address does not. */
  lemma RestrictLookupExamples()
    ensures RestrictLookup(Some("::ffff:127.0.0.1")) == Next
    ensures RestrictLookup(Some("::1")) == Next
    ensures RestrictLookup(Some("")) == Reject(403)
    ensures RestrictLookup(None) == Reject(403)
  {
    assert MAPPED_PREFIX <= "::ffff:127.0.0.1";
    assert "::ffff:127.0.0.1"[|MAPPED_PREFIX|..] == LOOPBACK_V4;
    assert !(MAPPED_PREFIX <= "::1");
  }

  /**
   * The admin routes are reached exactly by a loopback client that sends the
   * exact header; a non-local client gets 403 whatever its header, and a
   * local one with any other header, or none, gets 401.
   */
  lemma AdminGuardOutcome(remote: Option<string>, authorization: Option<string>)
    ensures AdminGuard(remote, authorization) == Next <==>
      RestrictLookup(remote) == Next && authorization == Some(ADMIN_AUTH)
    ensures RestrictLookup(remote) != Next ==> AdminGuard(remote, authorization) == Reject(403)
    ensures RestrictLookup(remote) == Next && authorization != Some(ADMIN_AUTH) ==>
      AdminGuard(remote, authorization) == Reject(401)
  {
    RestrictLookupAccepts(remote);
  }
}
