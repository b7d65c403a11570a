/** What the guard rails promise of an order, said without the code that
    checks it, and that the code checks exactly this. */
module GuardRails {
  import opened PyText
  import opened Orders

  // ── the hosts of the configured origins ──

  predicate SlashesAt(s: string, m: nat) {
    m + 2 <= |s| && s[m] == '/' && s[m + 1] == '/'
  }

  /** The host of an origin starts behind its first double slash, or at once. */
  predicate HostStartsAt(origin: string, at: nat) {
    && at <= |origin|
    && if at == 0 then forall m: nat | m < |origin| :: !SlashesAt(origin, m)
       else at >= 2 && SlashesAt(origin, at - 2) && forall m: nat | m < at - 2 :: !SlashesAt(origin, m)
  }

  /** It ends before the next slash or colon. */
  predicate StartsWithHost(s: string, host: string) {
    && |host| <= |s| && s[..|host|] == host && Free(host, '/') && Free(host, ':')
    && (|host| == |s| || s[|host|] == '/' || s[|host|] == ':')
  }

  predicate HostOf(origin: string, host: string) {
    host != "" && exists at: nat | at <= |origin| :: HostStartsAt(origin, at) && StartsWithHost(origin[at..], host)
  }

  predicate IsConsoleHost(s: Settings, host: string) {
    exists origin | origin in s.corsOrigins :: HostOf(origin, host)
  }

  /** Where the first double slash stands. */
  lemma {:induction false} FirstSlashes(s: string, whole: string) returns (m: Option<nat>)
    ensures m.None? ==> AfterDoubleSlashOr(s, whole) == whole && forall k: nat :: !SlashesAt(s, k)
    ensures m.Some? ==> SlashesAt(s, m.value) && AfterDoubleSlashOr(s, whole) == s[m.value + 2..]
                        && forall k: nat | k < m.value :: !SlashesAt(s, k)
  {
    if |s| < 2 {
      m := None;
    } else if StartsWith(s, "//") {
      assert s[..2][0] == '/' && s[..2][1] == '/';
      m := Some(0);
    } else {
      assert s[..2] == [s[0], s[1]];
      var rest := FirstSlashes(s[1..], whole);
      assert forall k: nat | k > 0 :: SlashesAt(s, k) <==> SlashesAt(s[1..], k - 1);
      m := match rest case None => None case Some(k) => Some(k + 1);
    }
  }

  lemma HostStart(origin: string) returns (at: nat)
    ensures HostStartsAt(origin, at) && AfterDoubleSlash(origin) == origin[at..]
    ensures forall other: nat :: HostStartsAt(origin, other) ==> other == at
  {
    var m := FirstSlashes(origin, origin);
    at := match m case None => 0 case Some(k) => k + 2;
  }

  lemma HostIs(s: string, host: string)
    ensures StartsWithHost(s, host) <==> Before(Before(s, '/'), ':') == host
  {
    var front := Before(s, '/');
    var cut := Before(front, ':');
    assert StartsWithHost(s, cut);
    if StartsWithHost(s, host) {
      assert |host| < |s| ==> s[|host|] == '/' || s[|host|] == ':';
      assert |cut| < |s| ==> s[|cut|] == '/' || s[|cut|] == ':';
      assert |host| == |cut|;
    }
  }

  lemma ConsoleHostsExact(s: Settings, host: string)
    ensures host in ConsoleHosts(s) <==> IsConsoleHost(s, host)
  {
    hide AfterDoubleSlash, Before, HostStartsAt, StartsWithHost;
    forall origin | origin in s.corsOrigins
      ensures HostOf(origin, host) <==> host != "" && Before(Before(AfterDoubleSlash(origin), '/'), ':') == host
    {
      var at := HostStart(origin);
      HostIs(origin[at..], host);
    }
  }

  // ── what may be ordered ──

  predicate MayBlock(s: Settings, ip: IpFacts) {
    && !ip.loopback && !ip.linkLocal && !ip.multicast && !ip.reserved && !ip.unspecified
    && !IsConsoleHost(s, ip.text)
    && (s.blockPrivateRanges || !ip.isPrivate)
  }

  predicate MayDisable(s: Settings, account: string) {
    && account != "root" && account != "administrator" && account != "admin" && account != "system"
    && forall a | a in Split(s.protectedAccounts, ',') && Strip(a) != "" :: s.lower(Strip(a)) != account
  }

  /** An order's target is not blank; an address to block or unblock is one that
      may be blocked; an account to disable or enable is not protected. */
  predicate Allowed(s: Settings, action: string, target: string) {
    && Strip(target) != ""
    && (action == "block_ip" || action == "unblock_ip" ==>
          s.parseIp(Strip(target)).Some? && MayBlock(s, s.parseIp(Strip(target)).value))
    && (action == "disable_user" || action == "enable_user" ==> MayDisable(s, s.lower(Strip(target))))
  }

  /** What a refusal says is true of the target. */
  predicate True(s: Settings, action: string, target: string, refusal: Refusal) {
    var address, account := s.parseIp(Strip(target)), s.lower(Strip(target));
    match refusal
    case NoTarget => Strip(target) == ""
    case NotAnAddress => address == None
    case Loopback => address.Some? && address.value.loopback
    case Reserved =>
      address.Some? && (address.value.linkLocal || address.value.multicast || address.value.reserved
                        || address.value.unspecified)
    case ConsoleOrigin => address.Some? && IsConsoleHost(s, address.value.text)
    case PrivateAddress => address.Some? && address.value.isPrivate && !s.blockPrivateRanges
    case ProtectedAccount =>
      account == "root" || account == "administrator" || account == "admin" || account == "system"
    case ConfiguredAccount =>
      exists a | a in Split(s.protectedAccounts, ',') :: Strip(a) != "" && s.lower(Strip(a)) == account
  }

  /** An order is refused if and only if it is not allowed, and for a reason
      that holds. */
  lemma RefusedIffNotAllowed(s: Settings, action: string, target: string)
    ensures RefuseReason(s, action, target) == None <==> Allowed(s, action, target)
    ensures RefuseReason(s, action, target).Some? ==> True(s, action, target, RefuseReason(s, action, target).value)
  {
    if s.parseIp(Strip(target)).Some? {
      ConsoleHostsExact(s, s.parseIp(Strip(target)).value.text);
    }
    hide ConsoleHosts, IsConsoleHost, Strip, Split;
  }
}
