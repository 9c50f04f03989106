/** Manifest row ids of the form "<payload>/<offset>". */
module ChunkIds {
  import opened Common
  import opened HoleMap
  import opened Decimal

  /** The position of the last slash, or -1. */
  function LastSlash(id: string): (i: int)
    ensures -1 <= i < |id|
    ensures i >= 0 ==> id[i] == '/'
    ensures forall j :: i < j < |id| ==> id[j] != '/'
  {
    if id == [] then -1
    else if id[|id| - 1] == '/' then |id| - 1
    else LastSlash(id[..|id| - 1])
  }

  /** The offset an id names.  The accumulator is a uint64, so more digits than
      fit wrap around. */
  function ParseOffset(id: string): Option<U64> {
    var slash := LastSlash(id);
    if slash < 0 || slash == |id| - 1 then None
    else
      var digits := id[slash + 1..];
      if AllDigits(digits) then Some(Value(digits) % TWO64) else None
  }

  /** The payload an id belongs to; ids without one belong to none. */
  function PayloadOf(id: string): string {
    if LastSlash(id) > 0 then id[..LastSlash(id)] else ""
  }

  /** The id the carver gives the row of a payload at an offset. */
  function ChunkId(payload: string, offset: nat): string {
    payload + "/" + Format(offset)
  }

  lemma ChunkIdSlash(payload: string, offset: nat)
    ensures LastSlash(ChunkId(payload, offset)) == |payload|
    ensures ChunkId(payload, offset)[|payload| + 1..] == Format(offset)
    ensures ChunkId(payload, offset)[..|payload|] == payload
  {
    var id := ChunkId(payload, offset);
    FormatDigits(offset);
    assert id[|payload|] == '/';
    forall j | |payload| < j < |id| ensures id[j] != '/' {
      assert id[j] == Format(offset)[j - |payload| - 1];
    }
  }

  /** Formatting and parsing an id gives back its payload and offset. */
  lemma ChunkIdRoundTrip(payload: string, offset: U64)
    ensures ParseOffset(ChunkId(payload, offset)) == Some(offset)
    ensures PayloadOf(ChunkId(payload, offset)) == payload
  {
    ChunkIdSlash(payload, offset);
    ValueFormat(offset);
    assert payload == [] ==> ChunkId(payload, offset)[..0] == "";
  }

  /** The id is a payload, a slash and digits that write the offset modulo 2^64. */
  predicate Spells(id: string, payload: string, digits: string, off: U64) {
    id == payload + "/" + digits && digits != "" && AllDigits(digits) && off == Value(digits) % 0x1_0000_0000_0000_0000
  }

  lemma SpelledIsParsed(payload: string, digits: string)
    requires digits != "" && AllDigits(digits)
    ensures ParseOffset(payload + "/" + digits) == Some(Value(digits) % TWO64)
  {
    SlashBeforeDigits(payload, digits);
    assert (payload + "/" + digits)[|payload| + 1..] == digits;
  }

  lemma ParsedIsSpelled(id: string)
    requires ParseOffset(id).Some?
    ensures Spells(id, id[..LastSlash(id)], id[LastSlash(id) + 1..], ParseOffset(id).value)
  {
    assert id == id[..LastSlash(id)] + "/" + id[LastSlash(id) + 1..];
  }

  /** An id names an offset exactly when it ends in a slash and digits that write it. */
  lemma ParseOffsetExactly(id: string, off: U64)
    ensures ParseOffset(id) == Some(off) <==> exists payload, digits :: Spells(id, payload, digits, off)
  {
    if ParseOffset(id) == Some(off) {
      ParsedIsSpelled(id);
    }
    if payload, digits :| Spells(id, payload, digits, off) {
      SpelledIsParsed(payload, digits);
    }
  }

  lemma {:induction false} SlashBeforeDigits(payload: string, suffix: string)
    requires '/' !in suffix
    ensures LastSlash(payload + "/" + suffix) == |payload|
  {
    var id := payload + "/" + suffix;
    if suffix == [] {
      assert id[|id| - 1] == '/';
    } else {
      var front := suffix[..|suffix| - 1];
      assert id[..|id| - 1] == payload + "/" + front;
      assert id[|id| - 1] == suffix[|suffix| - 1] && suffix[|suffix| - 1] in suffix;
      SlashBeforeDigits(payload, front);
    }
  }

  /** The payload is what stands before the last slash. */
  lemma PayloadExactly(payload: string, suffix: string)
    requires '/' !in suffix
    ensures PayloadOf(payload + "/" + suffix) == payload && PayloadOf(suffix) == ""
  {
    SlashBeforeDigits(payload, suffix);
    assert (payload + "/" + suffix)[..|payload|] == payload;
  }

  lemma {:induction false} ModShift(k: nat, x: nat)
    ensures (k * TWO64 + x) % TWO64 == x % TWO64
  {
    if k > 0 {
      ModShift(k - 1, x);
      assert k * TWO64 + x == ((k - 1) * TWO64 + x) + TWO64;
    }
  }

  /** One wrapping accumulation step. */
  lemma WrapStep(v: nat, d: nat)
    ensures ((v % TWO64) * 10 + d) % TWO64 == (v * 10 + d) % TWO64
  {
    var k := v / TWO64;
    assert v == k * TWO64 + v % TWO64;
    assert v * 10 + d == (k * 10) * TWO64 + ((v % TWO64) * 10 + d);
    ModShift(k * 10, (v % TWO64) * 10 + d);
  }

  /** The backward scan for the separating slash. */
  method FindSlash(id: string) returns (slash: int)
    ensures slash == LastSlash(id)
  {
    var i := |id| - 1;
    while i >= 0
      invariant -1 <= i < |id|
      invariant forall j :: i < j < |id| ==> id[j] != '/'
    {
      if id[i] == '/' {
        return i;
      }
      i := i - 1;
    }
    return -1;
  }

  function DigitOf(c: char): nat
    requires IsDigit(c)
  {
    c as int - '0' as int
  }

  lemma ValueStep(digits: string, k: nat)
    requires k < |digits| && AllDigits(digits[..k]) && IsDigit(digits[k])
    ensures AllDigits(digits[..k + 1])
    ensures (Value(digits[..k]) % TWO64 * 10 + DigitOf(digits[k])) % TWO64 == Value(digits[..k + 1]) % TWO64
  {
    assert digits[..k + 1][..k] == digits[..k];
    WrapStep(Value(digits[..k]), DigitOf(digits[k]));
  }

  /** The digit loop, in wrapping uint64 arithmetic. */
  method ParseDigits(digits: string) returns (v: U64, ok: bool)
    ensures ok <==> AllDigits(digits)
    ensures ok ==> v == Value(digits) % TWO64
  {
    v := 0;
    for k := 0 to |digits|
      invariant AllDigits(digits[..k]) && v == Value(digits[..k]) % TWO64
    {
      if !IsDigit(digits[k]) {
        return 0, false;
      }
      ValueStep(digits, k);
      v := (v * 10 + DigitOf(digits[k])) % TWO64;
    }
    assert digits[..|digits|] == digits;
    return v, true;
  }

  method ParseChunkOffset(id: string) returns (offset: U64, ok: bool)
    ensures ok <==> ParseOffset(id).Some?
    ensures ok ==> ParseOffset(id) == Some(offset)
  {
    var slash := FindSlash(id);
    if slash < 0 || slash == |id| - 1 {
      return 0, false;
    }
    offset, ok := ParseDigits(id[slash + 1..]);
  }
}
