/**
 The ENS node of a dotted name, as the relayer registry computes it: an index into the name moves
 from label to label. Names are byte strings; the hash functions are parameters.
 */
module Namehash {
  import opened Common

  /** `pair` hashes two 32-byte words, `text` hashes a label. */
  datatype Hashes = Hashes(pair: (Word, Word) -> Word, text: string -> Word)

  /** The part of a name before its first dot. */
  function LabelLen(name: string): (n: nat)
    ensures n <= |name| && '.' !in name[..n]
    ensures n < |name| ==> name[n] == '.'
  {
    if name == "" || name[0] == '.' then 0 else 1 + LabelLen(name[1..])
  }

  /** The partition algorithm of EIP-137: the first label is hashed onto the node of what follows its dot. */
  function Node(h: Hashes, name: string): Word
    decreases |name|
  {
    if name == "" then 0 else
      var n := LabelLen(name);
      h.pair(Node(h, if n == |name| then "" else name[n + 1..]), h.text(name[..n]))
  }

  /** Counts bytes from index `i` up to a dot or the end. */
  method LabelLength(domain: string, i: nat) returns (len: nat)
    requires i <= |domain|
    ensures i + len <= |domain| && domain[i..i + len] == domain[i..][..LabelLen(domain[i..])]
  {
    len := 0;
    while i + len != |domain| && domain[i + len] != '.'
      invariant i + len <= |domain|
      invariant LabelLen(domain[i..]) == len + LabelLen(domain[i + len..])
      decreases |domain| - i - len
    {
      assert domain[i + len..][1..] == domain[i + len + 1..];
      len := len + 1;
    }
  }

  lemma NextLabel(domain: string, i: nat, len: nat)
    requires i < |domain| && i + len <= |domain| && domain[i..i + len] == domain[i..][..LabelLen(domain[i..])]
    ensures len == LabelLen(domain[i..])
    ensures i + len < |domain| ==> domain[i..][len + 1..] == domain[i + len + 1..]
  {
    assert |domain[i..i + len]| == len;
  }

  /** The recursion over the index; `i` may be one past the end after the last label. */
  method NamehashFrom(h: Hashes, domain: string, i: nat) returns (node: Word)
    ensures node == Node(h, if i <= |domain| then domain[i..] else "")
    decreases |domain| - i
  {
    hide LabelLen;
    if |domain| <= i {
      return 0;
    }
    var len := LabelLength(domain, i);
    var parent := NamehashFrom(h, domain, i + len + 1);
    NextLabel(domain, i, len);
    return h.pair(parent, h.text(domain[i..i + len]));
  }

  // ------------------------------------------------------------ names as lists of labels

  /** A name cut at every dot; k dots give k + 1 labels, some of them empty. */
  function Split(name: string): (labels: seq<string>)
    ensures labels != []
    decreases |name|
  {
    var n := LabelLen(name);
    if n == |name| then [name] else [name[..n]] + Split(name[n + 1..])
  }

  function Join(labels: seq<string>): string {
    if labels == [] then ""
    else if |labels| == 1 then labels[0]
    else labels[0] + "." + Join(labels[1..])
  }

  /** The recursive definition of EIP-137 on a list of labels. */
  function NodeOfLabels(h: Hashes, labels: seq<string>): Word {
    if labels == [] then 0 else h.pair(NodeOfLabels(h, labels[1..]), h.text(labels[0]))
  }

  /** The labels of a name; the empty name has none. */
  function Labels(name: string): seq<string> {
    if name == "" then [] else Split(name)
  }

  predicate EndsWithDot(name: string) {
    name != "" && name[|name| - 1] == '.'
  }

  /** Splitting loses nothing, and no label holds a dot. */
  lemma {:induction false} JoinOfSplit(name: string)
    ensures Join(Split(name)) == name
    ensures forall l | l in Split(name) :: '.' !in l
    decreases |name|
  {
    var n := LabelLen(name);
    if n < |name| {
      JoinOfSplit(name[n + 1..]);
      assert name == name[..n] + "." + name[n + 1..];
    }
  }

  lemma {:induction false} SplitAfterDot(name: string)
    ensures Split(name + ".") == Split(name) + [""]
    decreases |name|
  {
    var n := LabelLen(name);
    FirstLabel(name, ".");
    if n < |name| {
      assert (name + ".")[n + 1..] == name[n + 1..] + ".";
      SplitAfterDot(name[n + 1..]);
    } else {
      assert (name + ".")[n + 1..] == "";
    }
  }

  /** Appending from a dot on does not change the first label. */
  lemma {:induction false} FirstLabel(name: string, tail: string)
    requires tail != "" && tail[0] == '.'
    ensures LabelLen(name + tail) == LabelLen(name)
    ensures (name + tail)[..LabelLen(name)] == name[..LabelLen(name)]
  {
    if name == "" {
      assert name + tail == tail;
    } else if name[0] != '.' {
      assert (name + tail)[1..] == name[1..] + tail;
      FirstLabel(name[1..], tail);
    }
  }

  /** Without a trailing dot the index-based node is the node of the labels. */
  lemma {:induction false} NodeIsOverLabels(h: Hashes, name: string)
    requires !EndsWithDot(name)
    ensures Node(h, name) == NodeOfLabels(h, Labels(name))
    decreases |name|
  {
    var n := LabelLen(name);
    if n < |name| {
      var rest := name[n + 1..];
      assert rest != "" && rest[|rest| - 1] == name[|name| - 1];
      NodeIsOverLabels(h, rest);
    } else {
      assert name[..n] == name;
    }
  }

  /** A trailing dot is swallowed: the last, empty label is not hashed. */
  lemma {:induction false} TrailingDotIsSwallowed(h: Hashes, name: string)
    ensures Node(h, name + ".") == NodeOfLabels(h, Split(name))
    decreases |name|
  {
    var n := LabelLen(name);
    FirstLabel(name, ".");
    if n < |name| {
      assert (name + ".")[n + 1..] == name[n + 1..] + ".";
      TrailingDotIsSwallowed(h, name[n + 1..]);
    } else {
      assert (name + ".")[n + 1..] == "" && (name + ".")[..n] == name;
    }
  }

  /** No collisions between words, and no preimage of zero. */
  ghost predicate CollisionFree(h: Hashes) {
    && (forall a, b, l, m :: h.pair(a, l) == h.pair(b, m) ==> a == b && l == m)
    && (forall a, l :: h.pair(a, l) != 0)
  }

  lemma {:induction false} OneMoreLabelDiffers(h: Hashes, labels: seq<string>, last: string)
    requires CollisionFree(h)
    ensures NodeOfLabels(h, labels + [last]) != NodeOfLabels(h, labels)
  {
    if labels == [] {
    } else {
      assert (labels + [last])[1..] == labels[1..] + [last];
      OneMoreLabelDiffers(h, labels[1..], last);
    }
  }

  /** The computed node is that of the name's labels exactly for names without a trailing dot. */
  lemma NamehashIsEip137(h: Hashes, name: string)
    requires CollisionFree(h)
    ensures Node(h, name) == NodeOfLabels(h, Labels(name)) <==> !EndsWithDot(name)
  {
    if EndsWithDot(name) {
      var stem := name[..|name| - 1];
      assert name == stem + ".";
      TrailingDotIsSwallowed(h, stem);
      SplitAfterDot(stem);
      OneMoreLabelDiffers(h, Split(stem), "");
    } else {
      NodeIsOverLabels(h, name);
    }
  }
}
