/**
 * `generateSessionUserId` (`src/frontend/src/lib/sessionUserId.ts`): "USER-" followed by eight
 * characters, one per random byte, each picked from a 36-character alphabet by the byte's
 * remainder modulo 36. The eight bytes that `crypto.getRandomValues` fills are a parameter.
 */
module SessionUserId {
  import opened Text

  newtype Byte = x: int | 0 <= x < 256

  const Alphabet: string := "ABCDEFGHIJKLMNOPQRSTUVWXYZ0123456789"
  const Prefix: string := "USER-"

  /** Position of an alphabet character: A-Z are 0-25, 0-9 are 26-35. */
  function AlphabetIndex(c: char): (k: nat)
    requires IsAsciiUpper(c) || IsDigit(c)
    ensures k < 36
  {
    if IsAsciiUpper(c) then c as int - 'A' as int else 26 + (c as int - '0' as int)
  }

  lemma AlphabetShape()
    ensures |Alphabet| == 36
    ensures forall k :: 0 <= k < 36 ==> (IsAsciiUpper(Alphabet[k]) || IsDigit(Alphabet[k])) && AlphabetIndex(Alphabet[k]) == k
  {
  }

  function GenerateSessionUserId(bytes: seq<Byte>): (id: string)
    requires |bytes| == 8
    ensures |id| == 13 && id[..5] == Prefix
    // Only upper-case ASCII letters and digits follow the prefix: no lower case, no punctuation.
    ensures forall i :: 5 <= i < 13 ==> IsAsciiUpper(id[i]) || IsDigit(id[i])
    // The character for byte i reads back as that byte's remainder modulo 36.
    ensures forall i :: 0 <= i < 8 ==> AlphabetIndex(id[5 + i]) == bytes[i] as int % 36
  {
    AlphabetShape();
    Prefix + seq(8, i requires 0 <= i < 8 => Alphabet[bytes[i] as int % 36])
  }

  /** Two byte arrays give the same ID exactly when they agree modulo 36 everywhere. */
  lemma SameIdIffSameResidues(a: seq<Byte>, b: seq<Byte>)
    requires |a| == 8 && |b| == 8
    ensures GenerateSessionUserId(a) == GenerateSessionUserId(b) <==>
      forall i :: 0 <= i < 8 ==> a[i] as int % 36 == b[i] as int % 36
  {
    var x, y := GenerateSessionUserId(a), GenerateSessionUserId(b);
    if forall i :: 0 <= i < 8 ==> a[i] as int % 36 == b[i] as int % 36 {
      AlphabetShape();
      assert forall i :: 0 <= i < 13 ==> x[i] == y[i];
    }
    if x == y {
      forall i | 0 <= i < 8
        ensures a[i] as int % 36 == b[i] as int % 36
      {
        assert AlphabetIndex(x[5 + i]) == AlphabetIndex(y[5 + i]);
      }
    }
  }

  lemma SessionUserIdExample()
    ensures GenerateSessionUserId([0, 25, 26, 35, 36, 255, 100, 7]) == "USER-AZ09AD2H"
  {
  }
}
