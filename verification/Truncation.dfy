/** Output truncation: a cut through the UTF-8 bytes that never splits a code point. */
module Truncation {
  import opened JsText
  import opened Utf8

  const BASH_OUTPUT_LIMIT: nat := 50 * 1024

  /** Two line feeds and "[OUTPUT TRUNCATED — exceeded maximum size]". */
  const NOTICE: Text := [
    10, 10, 91, 79, 85, 84, 80, 85, 84, 32, 84, 82, 85, 78, 67, 65, 84, 69, 68, 32, 0x2014, 32,
    101, 120, 99, 101, 101, 100, 101, 100, 32, 109, 97, 120, 105, 109, 117, 109, 32, 115, 105, 122, 101, 93]

  /** How many leading code points fit into `limit` bytes. */
  function Fit(cs: seq<Scalar>, limit: nat): (k: nat)
    ensures k <= |cs|
  {
    if cs == [] || Width(cs[0]) > limit then 0 else 1 + Fit(cs[1..], limit - Width(cs[0]))
  }

  lemma {:induction false} FitIsLongest(cs: seq<Scalar>, limit: nat, k: nat)
    requires k <= |cs|
    ensures |Encode(cs[..k])| <= limit <==> k <= Fit(cs, limit)
  {
    if k > 0 {
      assert cs[..k][1..] == cs[1..][..k - 1];
      assert |Encode(cs[..k])| == Width(cs[0]) + |Encode(cs[1..][..k - 1])|;
      if Width(cs[0]) <= limit {
        FitIsLongest(cs[1..], limit - Width(cs[0]), k - 1);
      }
    }
  }

  lemma FitsWholeIffSmall(cs: seq<Scalar>, limit: nat)
    ensures Fit(cs, limit) == |cs| <==> |Encode(cs)| <= limit
  {
    FitIsLongest(cs, limit, |cs|);
    assert cs[..|cs|] == cs;
  }

  /** Around the last boundary at or below `limit`: the byte there starts a code point, and every
      byte from there up to `limit` continues it. */
  lemma Boundary(cs: seq<Scalar>, limit: nat)
    requires |Encode(cs)| > limit
    ensures |Encode(cs[..Fit(cs, limit)])| <= limit < |Encode(cs[..Fit(cs, limit)])| + 4
    ensures !IsContinuation(Encode(cs)[|Encode(cs[..Fit(cs, limit)])|])
    ensures forall j :: |Encode(cs[..Fit(cs, limit)])| < j <= limit ==> IsContinuation(Encode(cs)[j])
    ensures Encode(cs)[..|Encode(cs[..Fit(cs, limit)])|] == Encode(cs[..Fit(cs, limit)])
  {
    var k := Fit(cs, limit);
    FitIsLongest(cs, limit, k);
    FitsWholeIffSmall(cs, limit);
    FitIsLongest(cs, limit, k + 1);
    EncodeAt(cs, k);
    BytesAt(Encode(cs[..k]), EncodeOne(cs[k]), Encode(cs[k + 1..]), limit);
  }

  lemma EncodeAt(cs: seq<Scalar>, k: nat)
    requires k < |cs|
    ensures Encode(cs[..k + 1]) == Encode(cs[..k]) + EncodeOne(cs[k])
    ensures Encode(cs) == Encode(cs[..k]) + EncodeOne(cs[k]) + Encode(cs[k + 1..])
  {
    assert cs[..k + 1] == cs[..k] + [cs[k]];
    EncodeAppend(cs[..k], [cs[k]]);
    assert [cs[k]][1..] == [];
    assert Encode([cs[k]]) == EncodeOne(cs[k]) + Encode([]);
    assert cs == cs[..k + 1] + cs[k + 1..];
    EncodeAppend(cs[..k + 1], cs[k + 1..]);
  }

  lemma BytesAt(head: seq<Byte>, one: seq<Byte>, rest: seq<Byte>, limit: nat)
    requires 0 < |one| <= 4 && |head| <= limit < |head| + |one|
    requires !IsContinuation(one[0]) && forall i :: 0 < i < |one| ==> IsContinuation(one[i])
    ensures limit < |head| + 4
    ensures var bytes := head + one + rest;
      && bytes[..|head|] == head && !IsContinuation(bytes[|head|])
      && forall j :: |head| < j <= limit ==> IsContinuation(bytes[j])
  {
    var bytes := head + one + rest;
    forall j | |head| < j <= limit ensures IsContinuation(bytes[j]) {
      assert bytes[j] == one[j - |head|];
    }
  }

  /** The text that `truncateOutput` returns. */
  function Truncated(output: Text, limit: nat): Text {
    if ByteLength(output) <= limit then output
    else Utf16(Scalars(output)[..Fit(Scalars(output), limit)]) + NOTICE
  }

  method TruncateOutput(output: Text, limit: nat) returns (r: Text)
    ensures r == Truncated(output, limit)
  {
    if ByteLength(output) <= limit {
      return output;
    }
    var buf := Encode(Scalars(output));
    ghost var cs := Scalars(output);
    ghost var cut := Encode(cs[..Fit(cs, limit)]);
    Boundary(cs, limit);
    var end := limit;
    while end > 0 && IsContinuation(buf[end])
      invariant |cut| <= end <= limit
    {
      end := end - 1;
    }
    assert end == |cut|;
    DecodeIffEncoded(cut, cs[..Fit(cs, limit)]);
    var truncated := Utf16(Decode(buf[..end]).value);
    r := truncated + NOTICE;
  }

  method TruncateBashOutput(output: Text) returns (r: Text)
    ensures r == Truncated(output, BASH_OUTPUT_LIMIT)
  {
    r := TruncateOutput(output, BASH_OUTPUT_LIMIT);
  }

  /** What a cut keeps: the longest run of whole code points that fits, at most three bytes short of
      the limit, and, when the output has no lone surrogate, a prefix of the output itself. */
  lemma TruncationIsMaximal(output: Text, limit: nat)
    requires ByteLength(output) > limit
    ensures var cs := Scalars(output); var k := Fit(cs, limit);
      && k < |cs|
      && Scalars(Utf16(cs[..k])) == cs[..k]
      && limit - 3 <= ByteLength(Utf16(cs[..k])) <= limit < |Encode(cs[..k + 1])|
      && Encode(cs[..k]) == Encode(cs)[..ByteLength(Utf16(cs[..k]))]
      && (WellFormed(output) ==> Utf16(cs[..k]) <= output)
  {
    var cs := Scalars(output);
    var k := Fit(cs, limit);
    var kept := cs[..k];
    Boundary(cs, limit);
    ScalarsOfUtf16(kept);
    assert ByteLength(Utf16(kept)) == |Encode(kept)|;
    FitsWholeIffSmall(cs, limit);
    FitIsLongest(cs, limit, k + 1);
    if WellFormed(output) {
      KeptIsPrefix(output, k);
    }
  }

  lemma KeptIsPrefix(t: Text, k: nat)
    requires WellFormed(t) && k <= |Scalars(t)|
    ensures Utf16(Scalars(t)[..k]) <= t
  {
    var cs := Scalars(t);
    Utf16OfScalars(t);
    assert cs == cs[..k] + cs[k..];
    Utf16Append(cs[..k], cs[k..]);
  }

  lemma {:induction false} BytesCoverUnits(cs: seq<Scalar>)
    ensures |Utf16(cs)| <= 2 * |Encode(cs)|
  {
    if cs != [] { BytesCoverUnits(cs[1..]); }
  }

  lemma NoticeBytes()
    ensures WellFormed(NOTICE) && ByteLength(NOTICE) >= 22
  {
    assert forall i :: 0 <= i < |NOTICE| ==> !IsHigh(NOTICE[i]) && !IsLow(NOTICE[i]);
    Utf16OfScalars(NOTICE);
    BytesCoverUnits(Scalars(NOTICE));
  }

  /** The limit bounds what is kept, not what is returned: the notice takes every cut output over
      the limit again, so a result fits exactly when its input did. */
  lemma CutOutputsOvershoot(output: Text, limit: nat)
    ensures ByteLength(Truncated(output, limit)) <= limit <==> ByteLength(output) <= limit
    ensures ByteLength(output) > limit ==>
      limit + ByteLength(NOTICE) - 3 <= ByteLength(Truncated(output, limit)) <= limit + ByteLength(NOTICE)
  {
    if ByteLength(output) > limit {
      var cs := Scalars(output);
      var kept := cs[..Fit(cs, limit)];
      Boundary(cs, limit);
      NoticeBytes();
      Utf16OfScalars(NOTICE);
      Utf16Append(kept, Scalars(NOTICE));
      ScalarsOfUtf16(kept + Scalars(NOTICE));
      EncodeAppend(kept, Scalars(NOTICE));
    }
  }
}
