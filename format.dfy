/**
 * Rendering of the answer to `/show` without a user: one block per field of the chat's
 * hash, in the order `Object.keys` gives for the reply object, joined with new lines.
 */
module Format {
  import opened Text
  import opened Store

  /** The block for one user: the bold name, a colon, a line break and the stored text. */
  function Block(name: string, value: string): (b: string)
    ensures |b| == |name| + |value| + 4
    ensures b[..|name| + 2] == "*" + name + "*"
    ensures b[|name| + 2..|name| + 4] == ":\n"
    ensures b[|name| + 4..] == value
  {
    "*" + name + "*:\n" + value
  }

  /** No field appears twice. */
  predicate Distinct(order: seq<string>) {
    forall i, j :: 0 <= i < j < |order| ==> order[i] != order[j]
  }

  /** `order` lists every field of `h` once, as `Object.keys` does for an HGETALL reply. */
  ghost predicate Enumerates(order: seq<string>, h: Hash) {
    Distinct(order) && forall k :: k in h <==> k in order
  }

  /** `Object.keys(keys).map(name => block)`: the i-th block belongs to the i-th listed field. */
  function Blocks(h: Hash, order: seq<string>): (bs: seq<string>)
    requires forall k :: k in order ==> k in h
    ensures |bs| == |order|
    ensures forall i :: 0 <= i < |order| ==> bs[i] == Block(order[i], h[order[i]])
  {
    if order == [] then [] else [Block(order[0], h[order[0]])] + Blocks(h, order[1..])
  }

  /**
   * The whole `/show` answer for a chat's hash: empty for no fields, otherwise the listing of
   * all but the last field, a line break, and the last field's block.
   */
  function RenderAll(h: Hash, order: seq<string>): (r: string)
    requires forall k :: k in order ==> k in h
    ensures order == [] ==> r == ""
    ensures |order| == 1 ==> r == Block(order[0], h[order[0]])
    ensures |order| >= 2 ==>
              r == RenderAll(h, order[..|order| - 1]) + "\n" + Block(order[|order| - 1], h[order[|order| - 1]])
  {
    var bs := Blocks(h, order);
    if |order| >= 2 then
      var init := order[..|order| - 1];
      assert bs == Blocks(h, init) + [bs[|bs| - 1]];
      JoinSnoc(Blocks(h, init), bs[|bs| - 1], "\n");
      Join(bs, "\n")
    else
      Join(bs, "\n")
  }

  /** A sequence without repetitions has as many distinct elements as it is long. */
  lemma {:induction false} DistinctCount(order: seq<string>)
    requires Distinct(order)
    ensures |set k | k in order| == |order|
  {
    if order != [] {
      var rest := order[1..];
      DistinctCount(rest);
      assert (set k | k in order) == {order[0]} + (set k | k in rest);
      assert order[0] !in (set k | k in rest);
    }
  }

  /** The answer has exactly one block per field of the hash, and each field's block is among them. */
  lemma BlockPerField(h: Hash, order: seq<string>)
    requires Enumerates(order, h)
    ensures |Blocks(h, order)| == |h|
    ensures forall k :: k in h ==> Block(k, h[k]) in Blocks(h, order)
  {
    DistinctCount(order);
    assert h.Keys == set k | k in order;
    forall k | k in h ensures Block(k, h[k]) in Blocks(h, order) {
      var i :| 0 <= i < |order| && order[i] == k;
      assert Blocks(h, order)[i] == Block(k, h[k]);
    }
  }

  /** A hash with a single field renders as that field's block alone. */
  lemma RenderSingleField(name: string, value: string, order: seq<string>)
    requires Enumerates(order, map[name := value])
    ensures RenderAll(map[name := value], order) == Block(name, value)
  {
    BlockPerField(map[name := value], order);
    assert |order| == 1;
    assert order[0] in map[name := value];
  }
}
