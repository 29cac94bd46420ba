/** The closed, ordered set of rarities an asset name can carry. */
module Rarities {

  /** C < UC < R < VR < SR < UR, the order of the game's rarity enumeration. */
  datatype Rarity = C | UC | R | VR | SR | UR

  const AllRarities: seq<Rarity> := [C, UC, R, VR, SR, UR]

  /** The code that spells the rarity in asset and row names. */
  function Code(r: Rarity): (s: string)
    ensures 1 <= |s| <= 2 && forall i :: 0 <= i < |s| ==> 'A' <= s[i] <= 'Z'
  {
    match r
    case C => "C"
    case UC => "UC"
    case R => "R"
    case VR => "VR"
    case SR => "SR"
    case UR => "UR"
  }

  /** The rarity's position in the game's rarity enumeration (Common = 0). */
  function Ordinal(r: Rarity): (n: nat)
    ensures n < |AllRarities| && AllRarities[n] == r
  {
    match r
    case C => 0
    case UC => 1
    case R => 2
    case VR => 3
    case SR => 4
    case UR => 5
  }

  lemma CodeInjective(a: Rarity, b: Rarity)
    ensures Code(a) == Code(b) ==> a == b
  {
  }
}
