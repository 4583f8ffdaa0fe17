/**
 * `parseSocketData` of frontend/shared-layouts/login-page.c: split the text of the
 * login field, `host:port`, into a host buffer and a port buffer.
 *
 * The first loop reads at most 25 characters looking for ':' without stopping at
 * the NUL, so the input is the whole field buffer, not just its string; every read
 * the two loops make must fall inside it.
 */
module Login {
  import opened CStrings

  /** The limits of the two copy loops. */
  const MAX_HOST: nat := 25
  const MAX_PORT: nat := 4

  /** The shortest port accepted. */
  const MIN_PORT: nat := 3

  /** Where the host loop stops, scanning from `i`: at ':' or after `MAX_HOST` characters. */
  function HostScan(s: seq<char>, i: nat): (n: nat)
    requires i <= MAX_HOST && i <= |s|
    ensures i <= n <= MAX_HOST && n <= |s|
    ensures forall k :: i <= k < n ==> s[k] != ':'
    ensures n < MAX_HOST && n < |s| ==> s[n] == ':'
    decreases MAX_HOST - i
  {
    if i == MAX_HOST || i == |s| || s[i] == ':' then i else HostScan(s, i + 1)
  }

  /** The number of characters the host loop copies. */
  function HostLength(s: seq<char>): (n: nat)
    ensures n <= MAX_HOST && n <= |s|
    ensures forall k :: 0 <= k < n ==> s[k] != ':'
    ensures n < MAX_HOST && n < |s| ==> s[n] == ':'
  {
    HostScan(s, 0)
  }

  /** Where the port loop stops, scanning from `j` characters after `start`. */
  function PortScan(s: seq<char>, start: nat, j: nat): (n: nat)
    requires j <= MAX_PORT
    ensures j <= n <= MAX_PORT
    ensures n == j || start + n <= |s|
    ensures forall k :: start + j <= k < start + n ==> s[k] != NUL && s[k] != '_'
    ensures n < MAX_PORT && start + n < |s| ==> s[start + n] == NUL || s[start + n] == '_'
    decreases MAX_PORT - j
  {
    if j == MAX_PORT || start + j >= |s| || s[start + j] == NUL || s[start + j] == '_' then j
    else PortScan(s, start, j + 1)
  }

  /** The port loop starts one past where the host loop stopped, over the separator. */
  function PortStart(s: seq<char>): nat
  {
    HostLength(s) + 1
  }

  /** The number of characters the port loop copies. */
  function PortLength(s: seq<char>): (n: nat)
    ensures n <= MAX_PORT && (n == 0 || PortStart(s) + n <= |s|)
  {
    PortScan(s, PortStart(s), 0)
  }

  /** Every character either loop tests lies inside the buffer. */
  predicate Readable(s: seq<char>)
  {
    (HostLength(s) == MAX_HOST || HostLength(s) < |s|)
    && (PortLength(s) == MAX_PORT || PortStart(s) + PortLength(s) < |s|)
  }

  /** The text copied to `ipaddr`. */
  function Host(s: seq<char>): (h: string)
    ensures |h| <= MAX_HOST && ':' !in h
  {
    s[..HostLength(s)]
  }

  /** The text copied to `port`. */
  function Port(s: seq<char>): (p: string)
    ensures |p| <= MAX_PORT && NUL !in p && '_' !in p
  {
    var n := PortLength(s);
    if n == 0 then [] else s[PortStart(s)..PortStart(s) + n]
  }

  /**
   * `parseSocketData`: `ipaddr` receives the host and a NUL, `port` the port and a
   * NUL, and the result says whether the port has at least `MIN_PORT` characters.
   */
  method ParseSocketData(socketData: array<char>, ipaddr: array<char>, port: array<char>) returns (ok: bool)
    requires Readable(socketData[..])
    requires ipaddr.Length > HostLength(socketData[..]) && port.Length > PortLength(socketData[..])
    requires ipaddr != socketData && port != socketData && ipaddr != port
    modifies ipaddr, port
    ensures var h := Host(socketData[..]);
      ipaddr[..|h|] == h && ipaddr[|h|] == NUL
      && forall k :: |h| < k < ipaddr.Length ==> ipaddr[k] == old(ipaddr[k])
    ensures var p := Port(socketData[..]);
      port[..|p|] == p && port[|p|] == NUL
      && forall k :: |p| < k < port.Length ==> port[k] == old(port[k])
    ensures ok <==> |Port(socketData[..])| >= MIN_PORT
  {
    var n := CopyHost(socketData, ipaddr);
    var m := CopyPort(socketData, n + 1, port);
    ok := m >= MIN_PORT;
  }

  /** The first loop of `parseSocketData`: the host and its NUL into `ipaddr`. */
  method CopyHost(socketData: array<char>, ipaddr: array<char>) returns (n: nat)
    requires HostLength(socketData[..]) == MAX_HOST || HostLength(socketData[..]) < socketData.Length
    requires ipaddr.Length > HostLength(socketData[..]) && ipaddr != socketData
    modifies ipaddr
    ensures n == HostLength(socketData[..])
    ensures ipaddr[..n] == Host(socketData[..]) && ipaddr[n] == NUL
    ensures forall k :: n < k < ipaddr.Length ==> ipaddr[k] == old(ipaddr[k])
  {
    ghost var s := socketData[..];
    var i := 0;
    while i < MAX_HOST && socketData[i] != ':'
      invariant i <= HostLength(s)
      invariant ipaddr[..i] == s[..i]
      invariant forall k :: i <= k < ipaddr.Length ==> ipaddr[k] == old(ipaddr[k])
      decreases MAX_HOST - i
    {
      ipaddr[i] := socketData[i];
      i := i + 1;
    }
    ipaddr[i] := NUL;
    n := i;
  }

  /** The second loop of `parseSocketData`: from `start`, the port and its NUL into `port`. */
  method CopyPort(socketData: array<char>, start: nat, port: array<char>) returns (n: nat)
    requires var l := PortScan(socketData[..], start, 0); l == MAX_PORT || start + l < socketData.Length
    requires port.Length > PortScan(socketData[..], start, 0) && port != socketData
    modifies port
    ensures n == PortScan(socketData[..], start, 0)
    ensures n == 0 || port[..n] == socketData[start..start + n]
    ensures port[n] == NUL
    ensures forall k :: n < k < port.Length ==> port[k] == old(port[k])
  {
    ghost var s := socketData[..];
    var j := 0;
    while j < MAX_PORT && socketData[start + j] != NUL
      invariant j <= PortScan(s, start, 0) && (j < MAX_PORT ==> start + j < socketData.Length)
      invariant forall k :: 0 <= k < j ==> port[k] == s[start + k]
      invariant forall k :: j <= k < port.Length ==> port[k] == old(port[k])
      decreases MAX_PORT - j
    {
      if socketData[start + j] == '_' {
        break;
      }
      port[j] := socketData[start + j];
      j := j + 1;
    }
    port[j] := NUL;
    n := j;
    assert n == 0 || port[..n] == s[start..start + n];
  }

  /**
   * A field holding a host of at most 25 characters without ':', a ':', and a port
   * of 3 or 4 characters without NUL or '_', followed by a NUL, a '_' or (for a
   * 4-character port) anything, splits back into that host and port.
   */
  lemma ParseOfJoin(h: string, p: string, rest: string)
    requires |h| <= MAX_HOST && ':' !in h
    requires MIN_PORT <= |p| <= MAX_PORT && NUL !in p && '_' !in p
    requires |p| < MAX_PORT ==> rest != [] && (rest[0] == NUL || rest[0] == '_')
    ensures var s := h + ([':'] + (p + rest));
      Readable(s) && Host(s) == h && Port(s) == p && |Port(s)| >= MIN_PORT
  {
    var s := h + ([':'] + (p + rest));
    HostOfJoin(h, s);
    assert HostLength(s) == |h|;
    PortOfJoin(s, |h| + 1, p, rest, 0);
    assert s[|h| + 1..|h| + 1 + |p|] == p;
  }

  lemma {:induction false} HostOfJoin(h: string, s: string)
    requires |h| <= MAX_HOST && ':' !in h && |h| < |s| && s[..|h|] == h && s[|h|] == ':'
    ensures HostLength(s) == |h|
  {
    HostScanStops(s, 0, |h|);
  }

  /** The host scan from any point up to `n` reaches `n` when nothing before it is ':'. */
  lemma {:induction false} HostScanStops(s: seq<char>, i: nat, n: nat)
    requires i <= n <= MAX_HOST && n < |s| && s[n] == ':'
    requires forall k :: i <= k < n ==> s[k] != ':'
    ensures HostScan(s, i) == n
    decreases n - i
  {
    if i < n {
      HostScanStops(s, i + 1, n);
    }
  }

  lemma {:induction false} PortOfJoin(s: string, start: nat, p: string, rest: string, j: nat)
    requires j <= |p| <= MAX_PORT && NUL !in p && '_' !in p
    requires start <= |s| && s[start..] == p + rest
    requires |p| < MAX_PORT ==> rest != [] && (rest[0] == NUL || rest[0] == '_')
    ensures PortScan(s, start, j) == |p|
    ensures |p| == MAX_PORT || start + |p| < |s|
    decreases MAX_PORT - j
  {
    assert forall k :: 0 <= k < |p| ==> s[start + k] == p[k];
    if |p| < MAX_PORT {
      assert s[start + |p|] == rest[0];
    }
    if j < |p| {
      assert s[start + j] == p[j];
      PortOfJoin(s, start, p, rest, j + 1);
    }
  }
}
