/**
 * The five spell labels of the wand and the wire form in which a cast
 * spell is broadcast: one marker byte '!' followed by the ASCII bytes of
 * the label.
 */
module Spells {

  newtype byte = x: int | 0 <= x < 256

  type Bytes = seq<byte>

  /** The four directions and the label for an unrecognized gesture. */
  datatype Spell = Up | Down | Left | Right | Other

  /** The string constant the source uses for each label. */
  function Label(s: Spell): (l: string)
    ensures |l| > 0 && IsAscii(l)
  {
    match s
    case Up => "up"
    case Down => "down"
    case Left => "left"
    case Right => "right"
    case Other => "other"
  }

  /** The marker byte that opens an outbound gesture message. */
  const Marker: byte := 0x21

  /** The all-ones six-byte link-layer address, meaning "every peer". */
  const Broadcast: Bytes := [0xFF, 0xFF, 0xFF, 0xFF, 0xFF, 0xFF]

  ghost predicate IsAscii(s: string)
  {
    forall i :: 0 <= i < |s| ==> s[i] as int < 128
  }

  /** The byte string whose bytes are the ASCII codes of s. */
  function AsciiBytes(s: string): (b: Bytes)
    requires IsAscii(s)
    ensures |b| == |s|
    ensures forall i :: 0 <= i < |s| ==> b[i] as int == s[i] as int
  {
    if s == [] then [] else [s[0] as int as byte] + AsciiBytes(s[1..])
  }

  /** The payload `b'!' + label` that the wand broadcasts for a cast spell. */
  function Payload(s: Spell): (p: Bytes)
    ensures |p| == 1 + |Label(s)|
    ensures p[0] == Marker
    ensures forall i :: 0 <= i < |Label(s)| ==> p[1 + i] as int == Label(s)[i] as int
  {
    [Marker] + AsciiBytes(Label(s))
  }

  /** Distinct spells are sent as distinct payloads, so a receiver can tell them apart. */
  lemma PayloadInjective(s: Spell, t: Spell)
    requires Payload(s) == Payload(t)
    ensures s == t
  {
  }

  /** The bytes of the Left message: 0x21 'l' 'e' 'f' 't'. */
  lemma LeftPayloadBytes()
    ensures Payload(Left) == [0x21, 0x6C, 0x65, 0x66, 0x74]
  {
  }
}
