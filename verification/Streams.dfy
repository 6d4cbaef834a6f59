/** Stretches of a stream of bytes. */
module Streams {
  import opened Words

  /** The bytes stand in the whole, from that place on. */
  ghost predicate IsStretch(part: seq<Byte>, whole: seq<Byte>, from: nat) {
    from + |part| <= |whole| && part == whole[from..from + |part|]
  }

  lemma StretchPrefix(part: seq<Byte>, x: seq<Byte>, y: seq<Byte>, from: nat)
    requires IsStretch(part, x, from)
    ensures IsStretch(part, x + y, from)
  {}

  lemma StretchLast(x: seq<Byte>, y: seq<Byte>)
    ensures IsStretch(y, x + y, |x|)
  {}

  lemma StretchBehind(part: seq<Byte>, front: seq<Byte>, whole: seq<Byte>, from: nat)
    requires IsStretch(part, whole, from)
    ensures IsStretch(part, front + whole, |front| + from)
  {}
}
