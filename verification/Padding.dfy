/** Padding of Nostr-embedded messages: data, a length byte, then that many random bytes; and its removal by
    a search from the end of the message. The drawn length and bytes are parameters. */
module Padding {
  import opened Types

  datatype EmbeddingConfig = EmbeddingConfig(enablePadding: bool, maxPaddingBytes: nat)

  /** `padding_length as u8`. */
  function AsU8(n: nat): Byte {
    n % 256
  }

  function Padded(cfg: EmbeddingConfig, data: seq<Byte>, n: nat, bytes: seq<Byte>): seq<Byte> {
    if !cfg.enablePadding || cfg.maxPaddingBytes == 0 || n == 0 then data
    else data + [AsU8(n)] + bytes
  }

  method ApplyPadding(cfg: EmbeddingConfig, data: seq<Byte>, n: nat, bytes: seq<Byte>) returns (padded: seq<Byte>)
    requires n <= cfg.maxPaddingBytes && |bytes| == n
    ensures padded == Padded(cfg, data, n, bytes)
    ensures padded == if cfg.enablePadding && n > 0 then data + [n % 256] + bytes else data
  {
    if !cfg.enablePadding || cfg.maxPaddingBytes == 0 {
      return data;
    }
    if n == 0 {
      return data;
    }
    padded := data;
    padded := padded + [AsU8(n)];
    padded := padded + bytes;
  }

  /** Reading `p` as the padding length is consistent: the byte before the last `p` bytes says so. */
  predicate Plausible(data: seq<Byte>, p: nat) {
    1 <= p < |data| && data[|data| - 1 - p] == p
  }

  /** The first plausible padding length from `p` on, up to `limit`. */
  function FirstPlausible(data: seq<Byte>, p: nat, limit: nat): Option<nat>
    decreases limit + 1 - p
  {
    if p > limit then None
    else if Plausible(data, p) then Some(p)
    else FirstPlausible(data, p + 1, limit)
  }

  function SearchLimit(cfg: EmbeddingConfig, data: seq<Byte>): nat {
    if data == [] then 0 else if cfg.maxPaddingBytes < |data| - 1 then cfg.maxPaddingBytes else |data| - 1
  }

  lemma {:induction false} FirstPlausibleIsFirst(data: seq<Byte>, p: nat, limit: nat)
    ensures var r := FirstPlausible(data, p, limit);
      && (r.None? ==> forall q :: p <= q <= limit ==> !Plausible(data, q))
      && (r.Some? ==> p <= r.value <= limit && Plausible(data, r.value)
                      && forall q :: p <= q < r.value ==> !Plausible(data, q))
    decreases limit + 1 - p
  {
    if p <= limit && !Plausible(data, p) {
      FirstPlausibleIsFirst(data, p + 1, limit);
    }
  }

  function Stripped(cfg: EmbeddingConfig, data: seq<Byte>): seq<Byte> {
    if !cfg.enablePadding then data
    else
      var found := FirstPlausible(data, 1, SearchLimit(cfg, data));
      if found.Some? && found.value < |data| then data[..|data| - 1 - found.value] else data
  }

  /** The byte at `i` is the number of bytes behind it, which may be padding. */
  predicate IsLengthByte(cfg: EmbeddingConfig, data: seq<Byte>, i: nat)
    requires i < |data|
  {
    data[i] == |data| - 1 - i && 1 <= data[i] <= cfg.maxPaddingBytes
  }

  ghost predicate IsLastLengthByte(cfg: EmbeddingConfig, data: seq<Byte>, i: nat)
    requires i < |data|
  {
    IsLengthByte(cfg, data, i) && forall j :: i < j < |data| ==> !IsLengthByte(cfg, data, j)
  }

  lemma PlausibleIsLengthByte(cfg: EmbeddingConfig, data: seq<Byte>, i: nat)
    requires i < |data|
    ensures IsLengthByte(cfg, data, i)
       <==> Plausible(data, |data| - 1 - i) && |data| - 1 - i <= SearchLimit(cfg, data)
  {
  }

  method RemovePadding(cfg: EmbeddingConfig, data: seq<Byte>) returns (r: seq<Byte>)
    ensures r == Stripped(cfg, data)
    ensures !cfg.enablePadding ==> r == data
    ensures cfg.enablePadding ==> forall i :: 0 <= i < |data| && IsLastLengthByte(cfg, data, i) ==> r == data[..i]
    ensures (forall i :: 0 <= i < |data| ==> !IsLengthByte(cfg, data, i)) ==> r == data
  {
    if !cfg.enablePadding || |data| == 0 {
      return data;
    }
    if |data| < 2 {
      return data;
    }
    var limit := if cfg.maxPaddingBytes < |data| - 1 then cfg.maxPaddingBytes else |data| - 1;
    for p := 1 to limit + 1
      invariant FirstPlausible(data, 1, limit) == FirstPlausible(data, p, limit)
      invariant forall i :: |data| - p <= i < |data| ==> !IsLengthByte(cfg, data, i)
    {
      var position := |data| - p - 1;
      if data[position] == p {
        assert IsLengthByte(cfg, data, position);
        return data[..position];
      }
    }
    r := data;
  }

  /** The draws for which removal undoes padding. With `n` random bytes: `n` fits the length byte, and no
      shorter length `p` is suggested by the random byte at `n - 1 - p`. Without padding: nothing in the
      searched tail of the data looks like a length. */
  predicate Recoverable(cfg: EmbeddingConfig, data: seq<Byte>, n: nat, bytes: seq<Byte>)
    requires |bytes| == n
  {
    if n == 0 then forall i :: 0 <= i < |data| ==> !IsLengthByte(cfg, data, i)
    else n <= 255 && forall i :: 0 <= i < n - 1 ==> bytes[i] != n - 1 - i
  }

  /** Inside the random bytes, plausibility is a matter of those bytes; at their start, of the length byte. */
  lemma PlausibleInPadding(data: seq<Byte>, n: nat, bytes: seq<Byte>, p: nat)
    requires |bytes| == n && 1 <= p <= n
    ensures Plausible(data + [AsU8(n)] + bytes, p) <==> (if p < n then Plausible(bytes, p) else n <= 255)
  {
    var padded := data + [AsU8(n)] + bytes;
    if p < n {
      assert padded[|padded| - 1 - p] == bytes[n - 1 - p];
    } else {
      assert padded[|padded| - 1 - p] == AsU8(n);
    }
  }

  /** The search stops at the length byte exactly for the recoverable draws. */
  lemma FoundAtLengthByte(cfg: EmbeddingConfig, data: seq<Byte>, n: nat, bytes: seq<Byte>)
    requires 1 <= n <= cfg.maxPaddingBytes && |bytes| == n
    ensures var padded := data + [AsU8(n)] + bytes;
      FirstPlausible(padded, 1, SearchLimit(cfg, padded)) == Some(n) <==> Recoverable(cfg, data, n, bytes)
  {
    var padded := data + [AsU8(n)] + bytes;
    FirstPlausibleIsFirst(padded, 1, SearchLimit(cfg, padded));
    forall p | 1 <= p <= n
      ensures Plausible(padded, p) <==> (if p < n then Plausible(bytes, p) else n <= 255)
    {
      PlausibleInPadding(data, n, bytes, p);
    }
    assert Plausible(padded, n) <==> n <= 255;
    if FirstPlausible(padded, 1, SearchLimit(cfg, padded)) == Some(n) {
      forall i | 0 <= i < n - 1
        ensures bytes[i] != n - 1 - i
      {
        assert !Plausible(padded, n - 1 - i);
      }
    }
    if Recoverable(cfg, data, n, bytes) {
      forall p | 1 <= p < n
        ensures !Plausible(padded, p)
      {
        assert bytes[n - 1 - p] != p;
      }
    }
  }

  lemma PaddedInverse(cfg: EmbeddingConfig, data: seq<Byte>, n: nat, bytes: seq<Byte>)
    requires cfg.enablePadding && 1 <= n <= cfg.maxPaddingBytes && |bytes| == n
    ensures Stripped(cfg, data + [AsU8(n)] + bytes) == data <==> Recoverable(cfg, data, n, bytes)
  {
    var padded := data + [AsU8(n)] + bytes;
    FoundAtLengthByte(cfg, data, n, bytes);
    FirstPlausibleIsFirst(padded, 1, SearchLimit(cfg, padded));
    assert padded[..|data|] == data;
  }

  lemma UnpaddedRecoverable(cfg: EmbeddingConfig, data: seq<Byte>)
    ensures Recoverable(cfg, data, 0, [])
       <==> forall p :: 1 <= p <= SearchLimit(cfg, data) ==> !Plausible(data, p)
  {
    forall i | 0 <= i < |data|
      ensures IsLengthByte(cfg, data, i)
         <==> Plausible(data, |data| - 1 - i) && |data| - 1 - i <= SearchLimit(cfg, data)
    {
      PlausibleIsLengthByte(cfg, data, i);
    }
    if Recoverable(cfg, data, 0, []) {
      forall p | 1 <= p <= SearchLimit(cfg, data)
        ensures !Plausible(data, p)
      {
        assert !IsLengthByte(cfg, data, |data| - 1 - p);
      }
    }
  }

  /** The exact condition under which removing padding gives back the data, for every configuration, every
      message, every drawn length and every drawn byte. */
  lemma ExactInverse(cfg: EmbeddingConfig, data: seq<Byte>, n: nat, bytes: seq<Byte>)
    requires n <= cfg.maxPaddingBytes && |bytes| == n
    ensures Stripped(cfg, Padded(cfg, data, n, bytes)) == data
       <==> !cfg.enablePadding || Recoverable(cfg, data, n, bytes)
  {
    if !cfg.enablePadding {
      assert Padded(cfg, data, n, bytes) == data;
    } else if n == 0 {
      FirstPlausibleIsFirst(data, 1, SearchLimit(cfg, data));
      UnpaddedRecoverable(cfg, data);
    } else {
      PaddedInverse(cfg, data, n, bytes);
    }
  }

  /** Unpadded data that ends in a one and any byte loses both; and a draw of 256 bytes, which the
      privacy-focused configuration allows, is never undone. */
  lemma RoundTripFails(cfg: EmbeddingConfig, prefix: seq<Byte>, last: Byte, data: seq<Byte>, bytes: seq<Byte>)
    requires cfg == EmbeddingConfig(true, 256) && |bytes| == 256
    ensures Stripped(cfg, Padded(cfg, prefix + [1, last], 0, [])) == prefix
    ensures Stripped(cfg, Padded(cfg, data, 256, bytes)) != data
  {
    var unpadded := prefix + [1, last];
    assert Plausible(unpadded, 1);
    assert unpadded[..|unpadded| - 2] == prefix;
    ExactInverse(cfg, data, 256, bytes);
  }
}
