/** A connection's incoming bytes, cut into reads as the network pleases. */
module Stream {
  import opened Bytes
  import opened Wrappers

  class Reader {
    /** What the peer has sent, or will send before it closes. */
    var pending: seq<byte>

    constructor (input: seq<byte>)
      ensures pending == input
    {
      pending := input;
    }

    /** One read returns any non-empty part of what is to come that fits; nothing only at the end. */
    method Read(max: nat) returns (chunk: seq<byte>)
      requires max > 0
      modifies this
      ensures chunk + pending == old(pending)
      ensures |chunk| <= max
      ensures chunk == [] <==> old(pending) == []
    {
      if pending == [] {
        return [];
      }
      var n :| 1 <= n <= max && n <= |pending|;
      chunk, pending := pending[..n], pending[n..];
    }

    /** Reads until `n` bytes are there; None when the stream ends first. */
    method ReadExact(n: nat) returns (r: Option<seq<byte>>)
      modifies this
      ensures n <= |old(pending)| ==> r == Some(old(pending)[..n]) && pending == old(pending)[n..]
      ensures n > |old(pending)| ==> r == None && pending == []
    {
      var filled: seq<byte> := [];
      while |filled| < n
        invariant |filled| <= n
        invariant filled + pending == old(pending)
        decreases n - |filled|
      {
        var chunk := Read(n - |filled|);
        if chunk == [] {
          return None;
        }
        filled := filled + chunk;
      }
      return Some(filled);
    }
  }
}
