/** The string masking helper of services/obfuscationUtils.ts.

    JavaScript strings are sequences of UTF-16 code units, and `split("")`
    splits into code units, so a string is modelled as a sequence of integers
    in 0..65535. `charCodeAt(0)` reads one unit; `String.fromCharCode` reduces
    its argument modulo 2^16 (the ToUint16 conversion, whose remainder is never
    negative, like Dafny's `%` for a positive divisor). */
module ObfuscationUtils {

  type CodeUnit = c: int | 0 <= c < 0x1_0000

  /** The shift applied to every code unit. */
  const SHIFT: int := 3

  /** `String.fromCharCode(n)` for an integer `n`: the code unit congruent
      to `n` modulo 2^16, which is `n` itself when `n` is already one. */
  function FromCharCode(n: int): (c: CodeUnit)
    ensures (n - c) % 0x1_0000 == 0
    ensures 0 <= n < 0x1_0000 ==> c == n
  {
    n % 0x1_0000
  }

  /** `.map(char => String.fromCharCode(char.charCodeAt(0) + k))` */
  function ShiftAll(s: seq<CodeUnit>, k: int): seq<CodeUnit> {
    seq(|s|, i requires 0 <= i < |s| => FromCharCode(s[i] + k))
  }

  /** `.reverse()` */
  function Reverse(s: seq<CodeUnit>): seq<CodeUnit> {
    seq(|s|, i requires 0 <= i < |s| => s[|s| - 1 - i])
  }

  /** Shift every code unit up by SHIFT, then reverse. */
  function Obfuscate(s: seq<CodeUnit>): (r: seq<CodeUnit>)
    ensures |r| == |s|
    ensures forall i :: 0 <= i < |s| ==> r[i] == FromCharCode(s[|s| - 1 - i] + SHIFT)
  {
    Reverse(ShiftAll(s, SHIFT))
  }

  /** Reverse, then shift every code unit down by SHIFT. */
  function Deobfuscate(s: seq<CodeUnit>): (r: seq<CodeUnit>)
    ensures |r| == |s|
    ensures forall i :: 0 <= i < |s| ==> r[i] == FromCharCode(s[|s| - 1 - i] - SHIFT)
  {
    ShiftAll(Reverse(s), -SHIFT)
  }

  /** Shifting by k and then by -k gives back every code unit, also across
      the wrap-around at 65535. */
  lemma ShiftCancels(c: CodeUnit, k: int)
    ensures FromCharCode(FromCharCode(c + k) + -k) == c
  {
    var m := (c + k) / 0x1_0000;
    assert c + k == m * 0x1_0000 + FromCharCode(c + k);
    assert FromCharCode(c + k) + -k == c + (-m) * 0x1_0000;
  }

  lemma ReverseInvolution(s: seq<CodeUnit>)
    ensures Reverse(Reverse(s)) == s
  {
    var r := Reverse(Reverse(s));
    forall i | 0 <= i < |s|
      ensures r[i] == s[i]
    {
      assert Reverse(s)[|s| - 1 - i] == s[i];
    }
  }

  lemma ShiftAllCancels(s: seq<CodeUnit>, k: int)
    ensures ShiftAll(ShiftAll(s, k), -k) == s
  {
    var t := ShiftAll(s, k);
    var r := ShiftAll(t, -k);
    forall i | 0 <= i < |s|
      ensures r[i] == s[i]
    {
      ShiftCancels(s[i], k);
    }
  }

  lemma DeobfuscateObfuscate(s: seq<CodeUnit>)
    ensures Deobfuscate(Obfuscate(s)) == s
  {
    ReverseInvolution(ShiftAll(s, SHIFT));
    ShiftAllCancels(s, SHIFT);
  }

  lemma ObfuscateDeobfuscate(s: seq<CodeUnit>)
    ensures Obfuscate(Deobfuscate(s)) == s
  {
    ShiftAllCancels(Reverse(s), -SHIFT);
    ReverseInvolution(s);
  }
}
