/**
 * The human-readable size of the package-size listing: the byte count is
 * divided by 1024 until it drops below 1024, and the unit reached names
 * it. Only B, KB, MB and GB are tried; a size of 1024 GB or more gets no
 * text at all.
 */
module ReadableBytes {
  import opened Wrappers

  const Units: seq<string> := ["B", "KB", "MB", "GB"]

  /** A size as printed, before the two-decimal formatting. */
  datatype Readable = Readable(value: real, unit: string)

  /** 1024 to the power `k`, for the units tried and the one beyond. */
  function Scale(k: nat): (r: real)
    requires k <= |Units|
    ensures r >= 1.0
  {
    if k == 0 then 1.0
    else if k == 1 then 1024.0
    else if k == 2 then 1048576.0
    else if k == 3 then 1073741824.0
    else 1099511627776.0
  }

  /** `value unit` reads back as the size: a value below 1024 in the unit
      `Units[k]`, and at least 1 unless the unit is bytes. */
  predicate Names(r: Readable, size: real, k: nat)
    requires k < |Units|
  {
    r.unit == Units[k] && r.value * Scale(k) == size && r.value < 1024.0 && (k > 0 ==> r.value >= 1.0)
  }

  /** The unit loop: the first unit in which the size is below 1024; none
      when the size reaches 1024 GB. */
  method BytesToReadable(sizeInBytes: int) returns (r: Option<Readable>)
    ensures r.None? <==> sizeInBytes as real >= Scale(4)
    ensures r.Some? ==> exists k :: 0 <= k < |Units| && r.value.unit == Units[k] && Names(r.value, sizeInBytes as real, k)
    ensures sizeInBytes < 1024 ==> r == Some(Readable(sizeInBytes as real, "B"))
  {
    var size: real := sizeInBytes as real;
    for k := 0 to |Units|
      invariant size * Scale(k) == sizeInBytes as real
      invariant k > 0 ==> size >= 1.0
    {
      if size < 1024.0 {
        r := Some(Readable(size, Units[k]));
        assert Names(r.value, sizeInBytes as real, k);
        ScaleBelowNext(size, k);
        return;
      }
      ScaleStep(size, k);
      size := size / 1024.0;
    }
    ScaleAtLeast(size);
    r := None;
  }

  lemma ScaleStep(size: real, k: nat)
    requires k < |Units|
    ensures (size / 1024.0) * Scale(k + 1) == size * Scale(k)
  {
  }

  lemma ScaleBelowNext(value: real, k: nat)
    requires k < |Units| && value < 1024.0
    ensures value * Scale(k) < Scale(4)
  {
  }

  lemma ScaleAtLeast(value: real)
    requires value >= 1.0
    ensures value * Scale(4) >= Scale(4)
  {
  }

  /** The unit is determined by the size: two readings of the same size
      that both obey the rule use the same unit and the same value. */
  lemma {:induction false} UnitIsDetermined(size: real, r: Readable, s: Readable, k: nat, j: nat)
    requires k < |Units| && j < |Units|
    requires Names(r, size, k) && Names(s, size, j)
    ensures k == j && r == s
  {
    if k < j {
      NoOverlap(r.value, s.value, k, j);
    } else if j < k {
      NoOverlap(s.value, r.value, j, k);
    } else {
      SameScale(r.value, s.value, k);
    }
  }

  /** A value below 1024 in a smaller unit is less than any value of at
      least 1 in a larger one. */
  lemma NoOverlap(a: real, b: real, k: nat, j: nat)
    requires k < j < |Units| && a < 1024.0 && b >= 1.0
    ensures a * Scale(k) < b * Scale(j)
  {
    assert Scale(k) * 1024.0 <= Scale(j);
    LessTimes(a, 1024.0, Scale(k));
    MoreTimes(b, Scale(j));
  }

  lemma LessTimes(a: real, b: real, c: real)
    requires a < b && c > 0.0
    ensures a * c < b * c
  {
  }

  lemma MoreTimes(b: real, c: real)
    requires b >= 1.0 && c > 0.0
    ensures b * c >= c
  {
  }

  lemma SameScale(a: real, b: real, k: nat)
    requires k < |Units| && a * Scale(k) == b * Scale(k)
    ensures a == b
  {
  }
}
