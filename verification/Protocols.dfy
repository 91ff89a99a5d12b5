/** The transfer protocols the server supports (src/frontend/ProtocolChecker.cpp). */
module Protocols {
  import opened Sequences

  /** The supported protocols of a list, in their order. */
  function Supported(requested: seq<string>, supported: seq<string>): (kept: seq<string>)
    ensures forall p :: p in kept <==> p in requested && p in supported
    ensures |kept| <= |requested|
  {
    if requested == [] then []
    else
      var n := |requested| - 1;
      Supported(requested[..n], supported) + (if requested[n] in supported then [requested[n]] else [])
  }

  /** Filtering keeps the whole list exactly if every protocol in it is supported. */
  lemma {:induction false} NothingRemoved(requested: seq<string>, supported: seq<string>)
    ensures Supported(requested, supported) == requested <==> forall p :: p in requested ==> p in supported
  {
    if requested != [] {
      var n := |requested| - 1;
      NothingRemoved(requested[..n], supported);
      assert requested == requested[..n] + [requested[n]];
      if requested[n] in supported {
        assert Supported(requested, supported)[..|Supported(requested[..n], supported)|]
            == Supported(requested[..n], supported);
      }
    }
  }

  /** The filter treats each protocol on its own, and keeps their order. */
  lemma {:induction false} EachOnItsOwn(a: seq<string>, b: seq<string>, supported: seq<string>)
    ensures Supported(a + b, supported) == Supported(a, supported) + Supported(b, supported)
    decreases |b|
  {
    if b == [] {
      assert a + b == a;
    } else {
      var n := |b| - 1;
      assert (a + b)[..|a + b| - 1] == a + b[..n] && (a + b)[|a + b| - 1] == b[n];
      EachOnItsOwn(a, b[..n], supported);
      LastFiltered(a + b, supported);
      LastFiltered(b, supported);
      hide Supported;
      if b[n] in supported {
        ConcatAssociative(Supported(a, supported), Supported(b[..n], supported), [b[n]]);
      }
    }
  }

  lemma LastFiltered(requested: seq<string>, supported: seq<string>)
    requires requested != []
    ensures var n := |requested| - 1;
      Supported(requested, supported) ==
        if requested[n] in supported then Supported(requested[..n], supported) + [requested[n]]
        else Supported(requested[..n], supported)
  {
  }

  lemma FilterOfOne(p: string, supported: seq<string>)
    ensures Supported([p], supported) == if p in supported then [p] else []
  {
    assert [p][..0] == [];
  }

  class ProtocolChecker {
    var supported: seq<string>

    /** 0 if every requested protocol is supported, 1 otherwise. */
    method CheckProtocols(protocols: seq<string>) returns (code: int)
      ensures code == if Supported(protocols, supported) == protocols then 0 else 1
    {
      NothingRemoved(protocols, supported);
      for i := 0 to |protocols|
        invariant forall j :: 0 <= j < i ==> protocols[j] in supported
      {
        if protocols[i] !in supported {
          return 1;
        }
      }
      return 0;
    }

    method RemoveUnsupportedProtocols(protocols: seq<string>) returns (filtered: seq<string>)
      ensures filtered == Supported(protocols, supported)
    {
      filtered := [];
      for i := 0 to |protocols|
        invariant filtered == Supported(protocols[..i], supported)
      {
        assert protocols[..i + 1][..i] == protocols[..i];
        if protocols[i] in supported {
          filtered := filtered + [protocols[i]];
        }
      }
      assert protocols[..|protocols|] == protocols;
    }
  }
}
