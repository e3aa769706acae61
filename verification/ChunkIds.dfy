/** The ids under which chunks are stored: `fmt.Sprintf("%s_chunk_%04d", key, part)` with the key's
    separators flattened. */
module ChunkIds {
  import opened Text
  import opened Documents

  function ReplaceSeparators(s: string): (r: string)
    ensures |r| == |s|
  {
    seq(|s|, i requires 0 <= i < |s| => if s[i] == ':' || s[i] == ' ' then '_' else s[i])
  }

  function DigitChar(d: nat): char
    requires d < 10
  {
    '0' + d as char
  }

  function Digits(n: nat): string {
    if n < 10 then [DigitChar(n)] else Digits(n / 10) + [DigitChar(n % 10)]
  }

  function PadLeft(s: string, width: nat): string
    decreases width - |s|
  {
    if |s| >= width then s else PadLeft("0" + s, width)
  }

  function ChunkID(key: string, part: nat): string {
    key + "_chunk_" + PadLeft(Digits(part), 4)
  }

  predicate IsDigits(s: string) {
    forall i | 0 <= i < |s| :: '0' <= s[i] <= '9'
  }

  function Value(s: string): nat
    requires IsDigits(s)
  {
    if s == "" then 0 else 10 * Value(s[..|s| - 1]) + (s[|s| - 1] as int - '0' as int)
  }

  lemma {:induction false} DigitsReadBack(n: nat)
    ensures IsDigits(Digits(n)) && Value(Digits(n)) == n
  {
    if n < 10 {
      assert Digits(n)[..0] == "";
    } else {
      DigitsReadBack(n / 10);
      assert Digits(n)[..|Digits(n)| - 1] == Digits(n / 10);
    }
  }

  lemma {:induction false} LeadingZero(s: string)
    requires IsDigits(s)
    ensures IsDigits("0" + s) && Value("0" + s) == Value(s)
    decreases |s|
  {
    if s == "" {
      assert ("0" + s)[..0] == "";
    } else {
      LeadingZero(s[..|s| - 1]);
      assert ("0" + s)[..|s|] == "0" + s[..|s| - 1];
    }
  }

  lemma {:induction false} PaddingKeepsValue(s: string, width: nat)
    requires IsDigits(s)
    ensures IsDigits(PadLeft(s, width)) && Value(PadLeft(s, width)) == Value(s)
    decreases width - |s|
  {
    if |s| < width {
      LeadingZero(s);
      PaddingKeepsValue("0" + s, width);
    }
  }

  /** A chunk id determines its key and its part, whatever the key contains. */
  lemma ChunkIDInjective(key1: string, part1: nat, key2: string, part2: nat)
    requires ChunkID(key1, part1) == ChunkID(key2, part2)
    ensures key1 == key2 && part1 == part2
  {
    var n1, n2 := PadLeft(Digits(part1), 4), PadLeft(Digits(part2), 4);
    DigitsReadBack(part1);
    DigitsReadBack(part2);
    PaddingKeepsValue(Digits(part1), 4);
    PaddingKeepsValue(Digits(part2), 4);
    assert ChunkID(key1, part1) == (key1 + "_chunk") + ['_'] + n1;
    assert ChunkID(key2, part2) == (key2 + "_chunk") + ['_'] + n2;
    SplitAtLast(key1 + "_chunk", key2 + "_chunk", n1, n2, '_');
    assert (key1 + "_chunk")[..|key1|] == key1;
    assert (key2 + "_chunk")[..|key2|] == key2;
  }

  lemma ReplaceSeparatorsOfID(id: string, code: string)
    requires IsCode(code)
    ensures ReplaceSeparators(id + ":" + code) == ReplaceSeparators(id) + ['_'] + code
  {
  }

  /** The chunks of two documents collide exactly when the documents' flattened ids agree (and then for
      the same language and part): `a:b`, `a b` and `a_b` share their chunk ids. */
  lemma ChunkIDsCollideIff(id1: string, l1: string, part1: nat, id2: string, l2: string, part2: nat)
    requires IsCode(l1) && IsCode(l2)
    ensures ChunkID(ReplaceSeparators(id1 + ":" + l1), part1) == ChunkID(ReplaceSeparators(id2 + ":" + l2), part2)
       <==> ReplaceSeparators(id1) == ReplaceSeparators(id2) && l1 == l2 && part1 == part2
  {
    var k1, k2 := ReplaceSeparators(id1 + ":" + l1), ReplaceSeparators(id2 + ":" + l2);
    ReplaceSeparatorsOfID(id1, l1);
    ReplaceSeparatorsOfID(id2, l2);
    if ChunkID(k1, part1) == ChunkID(k2, part2) {
      ChunkIDInjective(k1, part1, k2, part2);
      SplitAtLast(ReplaceSeparators(id1), ReplaceSeparators(id2), l1, l2, '_');
    }
  }
}
