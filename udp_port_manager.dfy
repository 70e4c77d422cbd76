/** Bookkeeping of the local UDP ports used for replies (UDPPortManager.py).
    The ports the operating system assigns to successive fresh sockets are
    given as a sequence of candidates; a socket is represented by its port. */
module UDPPortManager {

  /** Index of the first candidate not in use: the socket `get_free_socket` keeps. */
  function FirstFree(used: set<int>, candidates: seq<int>): (i: nat)
    requires exists k :: 0 <= k < |candidates| && candidates[k] !in used
    ensures i < |candidates| && candidates[i] !in used
    ensures forall j :: 0 <= j < i ==> candidates[j] in used
    decreases |candidates|
  {
    if candidates[0] !in used then 0
    else
      assert exists k :: 0 <= k < |candidates[1..]| && candidates[1..][k] !in used by {
        var k :| 0 <= k < |candidates| && candidates[k] !in used;
        assert candidates[1..][k - 1] == candidates[k];
      }
      1 + FirstFree(used, candidates[1..])
  }

  /** No port occurs twice. */
  predicate Distinct(s: seq<int>) {
    forall i, j :: 0 <= i < j < |s| ==> s[i] != s[j]
  }

  /** `s` without the occurrences of `p`. */
  function Without(s: seq<int>, p: int): seq<int> {
    if s == [] then []
    else if s[0] == p then Without(s[1..], p)
    else [s[0]] + Without(s[1..], p)
  }

  /** Removing a port keeps every other port, drops that one, and keeps the
      remaining ports distinct. */
  lemma {:induction false} WithoutProperties(s: seq<int>, p: int)
    ensures forall q :: q in Without(s, p) <==> q in s && q != p
    ensures Distinct(s) ==> Distinct(Without(s, p))
  {
    if s != [] {
      WithoutProperties(s[1..], p);
      if s[0] != p && Distinct(s) {
        var w := Without(s[1..], p);
        assert s[0] !in s[1..] by {
          forall j | 0 <= j < |s[1..]| ensures s[1..][j] != s[0] {
            assert s[1..][j] == s[j + 1];
          }
        }
        assert s[0] !in w;
        assert Distinct(s[1..]) by {
          forall i, j | 0 <= i < j < |s[1..]| ensures s[1..][i] != s[1..][j] {
            assert s[1..][i] == s[i + 1] && s[1..][j] == s[j + 1];
          }
        }
        var r := [s[0]] + w;
        forall i, j | 0 <= i < j < |r| ensures r[i] != r[j] {
          if i == 0 {
            assert r[j] == w[j - 1];
          } else {
            assert r[i] == w[i - 1] && r[j] == w[j - 1];
          }
        }
      } else if s[0] == p && Distinct(s) {
        assert Distinct(s[1..]) by {
          forall i, j | 0 <= i < j < |s[1..]| ensures s[1..][i] != s[1..][j] {
            assert s[1..][i] == s[i + 1] && s[1..][j] == s[j + 1];
          }
        }
      }
    }
  }

  /** Appending a port that is absent and then removing it gives back the sequence. */
  lemma {:induction false} WithoutAppendFresh(s: seq<int>, p: int)
    requires p !in s
    ensures Without(s + [p], p) == s
  {
    if s == [] {
      assert Without([p], p) == Without([], p);
    } else {
      assert (s + [p])[0] == s[0];
      assert (s + [p])[1..] == s[1..] + [p];
      WithoutAppendFresh(s[1..], p);
      assert [s[0]] + s[1..] == s;
    }
  }

  class PortManager {
    /** `_used_ports`. */
    var usedPorts: set<int>
    /** The ports of the live leases, oldest first: a lease lives from the end
        of the acquiring block (line 24) to its release in `finally`. */
    ghost var leases: seq<int>

    /** Lease exclusivity: the live leases hold pairwise distinct ports, and
        they are exactly the ports in use. */
    ghost predicate Valid()
      reads this
    {
      Distinct(leases) && forall p :: p in usedPorts <==> p in leases
    }

    constructor ()
      ensures Valid() && usedPorts == {} && leases == []
    {
      usedPorts := {};
      leases := [];
    }

    /** The acquiring half of `get_free_socket`: open sockets until the OS
        assigns a port not in use, closing each rejected socket, then record
        the port. `closed` lists the ports of the sockets closed on the way.
        The loop ends because some candidate is free. */
    method Acquire(candidates: seq<int>) returns (port: int, closed: seq<int>)
      requires Valid()
      requires exists k :: 0 <= k < |candidates| && candidates[k] !in usedPorts
      modifies this
      ensures Valid()
      ensures port !in old(usedPorts)
      ensures port == candidates[FirstFree(old(usedPorts), candidates)]
      ensures closed == candidates[..FirstFree(old(usedPorts), candidates)]
      ensures usedPorts == old(usedPorts) + {port}
      ensures leases == old(leases) + [port]
    {
      var i := 0;
      port := candidates[0];
      closed := [];
      while port in usedPorts
        invariant 0 <= i < |candidates| && port == candidates[i]
        invariant closed == candidates[..i]
        invariant forall j :: 0 <= j < i ==> candidates[j] in usedPorts
        invariant exists k :: i <= k < |candidates| && candidates[k] !in usedPorts
        decreases |candidates| - i
      {
        closed := closed + [port];
        i := i + 1;
        port := candidates[i];
      }
      usedPorts := usedPorts + {port};
      leases := leases + [port];
    }

    /** The releasing half (`finally`): discard the port, a no-op when it is
        not in use, and end its lease. */
    method Release(port: int)
      requires Valid()
      modifies this
      ensures Valid()
      ensures usedPorts == old(usedPorts) - {port}
      ensures leases == Without(old(leases), port)
    {
      WithoutProperties(leases, port);
      usedPorts := usedPorts - {port};
      leases := Without(leases, port);
    }

    /** `with get_free_socket() as sock: ...`: acquire, use, release. The use
        of the socket is not modelled; afterwards the ports in use and the live
        leases are what they were before. */
    method WithFreeSocket(candidates: seq<int>) returns (port: int)
      requires Valid()
      requires exists k :: 0 <= k < |candidates| && candidates[k] !in usedPorts
      modifies this
      ensures Valid()
      ensures port == candidates[FirstFree(old(usedPorts), candidates)]
      ensures usedPorts == old(usedPorts) && leases == old(leases)
    {
      ghost var before := leases;
      var closed;
      port, closed := Acquire(candidates);
      WithoutAppendFresh(before, port);
      Release(port);
    }
  }
}
