/** Raw data: sequences of octets. */
module Bytes {
  import opened Seqs

  newtype byte = x: int | 0 <= x < 0x100

  type Data = seq<byte>

  /** The stream a list of data blocks carries. */
  function Flatten(blocks: seq<Data>): Data {
    if blocks == [] then [] else blocks[0] + Flatten(blocks[1..])
  }

  lemma {:induction false} FlattenConcat(a: seq<Data>, b: seq<Data>)
    ensures Flatten(a + b) == Flatten(a) + Flatten(b)
  {
    var ab := a + b;
    if a == [] {
      assert ab == b;
    } else {
      assert ab[0] == a[0] && ab[1..] == a[1..] + b;
      FlattenConcat(a[1..], b);
      Assoc(a[0], Flatten(a[1..]), Flatten(b));
    }
  }
}
