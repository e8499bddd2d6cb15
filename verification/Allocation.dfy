/** The size checks in front of every allocation. */
module Allocation {
  import opened Bits
  import opened Descriptor

  /** Sizes are 64-bit numbers. */
  const SIZE_MAX: nat := 0xFFFF_FFFF_FFFF_FFFF

  /** Whether an array of that many items may be capacity. The division is made only when one of the factors has more
      than 32 bits. */
  method SizeAcceptable(dataSize: nat, arraySize: nat) returns (ok: bool)
    ensures ok <==> dataSize > 0 && arraySize > 0 && arraySize * dataSize <= SIZE_MAX
  {
    if dataSize == 0 || arraySize == 0 {
      return false;
    }
    var checkLimit := U32;
    if dataSize >= checkLimit || arraySize >= checkLimit {
      ProductBound(arraySize, dataSize);
      if SIZE_MAX / arraySize < dataSize {
        return false;
      }
    } else {
      SmallProduct(arraySize, dataSize);
    }
    return true;
  }

  lemma ProductBound(a: nat, d: nat)
    requires a > 0
    ensures SIZE_MAX / a < d <==> a * d > SIZE_MAX
  {
    var q, r := SIZE_MAX / a, SIZE_MAX % a;
    assert SIZE_MAX == a * q + r;
    if q < d {
      assert a * (q + 1) <= a * d;
    } else {
      assert a * d <= a * q;
    }
  }

  lemma ProductMonotone(a: nat, b: nat, d: nat)
    requires a <= b
    ensures a * d <= b * d
  {
  }

  lemma SmallProduct(a: nat, d: nat)
    requires a < U32 && d < U32
    ensures a * d <= SIZE_MAX
  {
    ProductMonotone(a, 0xFFFF_FFFF, d);
  }

  lemma RoundedUp(bytesLeft: nat, dataSize: nat, limit: nat)
    requires bytesLeft > 0 && dataSize > 0 && limit > 0
    ensures var r := (bytesLeft - 1) / dataSize + 1;
            (r - 1) * dataSize < bytesLeft <= r * dataSize && (r < limit <==> bytesLeft <= (limit - 1) * dataSize)
  {
    var q := (bytesLeft - 1) / dataSize;
    assert bytesLeft - 1 == q * dataSize + (bytesLeft - 1) % dataSize;
    assert (q + 1) * dataSize == q * dataSize + dataSize;
    if q + 1 < limit {
      ProductMonotone(q + 1, limit - 1, dataSize);
    } else {
      ProductMonotone(limit - 1, q, dataSize);
    }
  }

  /** The new capacity when a packed array needs one more item: there is room for all items that the remaining bytes can
      hold, and for one fewer there would not be, unless this comes up to the largest count; then it is one item more. */
  method Grow(capacity: nat, bytesLeft: nat, dataSize: nat) returns (larger: nat)
    requires capacity < PB_SIZE_MAX && bytesLeft > 0 && dataSize > 0
    ensures capacity < larger <= PB_SIZE_MAX
    ensures var more := larger - capacity;
            if bytesLeft <= (PB_SIZE_MAX - capacity - 1) * dataSize then (more - 1) * dataSize < bytesLeft <= more * dataSize
            else more == 1
  {
    var remain := (bytesLeft - 1) / dataSize + 1;
    RoundedUp(bytesLeft, dataSize, PB_SIZE_MAX - capacity);
    if remain < PB_SIZE_MAX - capacity {
      larger := capacity + remain;
    } else {
      larger := capacity + 1;
    }
  }
}
