/** connectors/email/parse.go: the parsed part tree, its leaves and their numbers. */
module Mime {
  import opened Wrappers
  import opened Text
  import opened Decimal

  /** One parsed part. A multipart part (section 5.1 of RFC 2046) has children and a boundary;
      any other part has a body, which a read error may cut short. */
  datatype Part = Part(mediaType: string, boundary: string, children: seq<Part>,
                       disposition: string, filename: string, name: string,
                       encoding: string, body: string, readFails: bool)

  /** Transfer decoding, whitespace trimming and encoded-word decoding stay abstract. */
  datatype Codec = Codec(decode: (string, string) -> string, trim: string -> string, word: string -> string)

  datatype Attachment = Attachment(filename: string, contentType: string, size: int, partID: string)

  /** What parseMessage returns. */
  datatype Message = Message(text: string, html: string, attachments: seq<Attachment>)

  /** A part that is not a container, with its index path. */
  datatype Leaf = Leaf(path: seq<nat>, part: Part)

  predicate IsMulti(p: Part) { HasPrefix(p.mediaType, "multipart/") }

  /** The leaves below a list of siblings in document order, numbered as in section 6.4.5 of RFC 3501:
      siblings count from 1, and a container without a boundary has no reachable parts. */
  function Leaves(parts: seq<Part>, first: nat, prefix: seq<nat>): seq<Leaf> {
    if parts == [] then []
    else
      LeavesOf(parts[0], prefix + [first]) + Leaves(parts[1..], first + 1, prefix)
  }

  function LeavesOf(p: Part, path: seq<nat>): seq<Leaf> {
    if !IsMulti(p) then [Leaf(path, p)]
    else if p.boundary == "" then []
    else Leaves(p.children, 1, path)
  }

  function Names(path: seq<nat>): (names: seq<string>)
    ensures |names| == |path| && forall i | 0 <= i < |path| :: names[i] == Itoa(path[i])
  {
    seq(|path|, i requires 0 <= i < |path| => Itoa(path[i]))
  }

  /** The dotted part number. */
  function Dotted(path: seq<nat>): string { Join(Names(path), '.') }

  function Filename(p: Part): string { if p.filename == "" then p.name else p.filename }

  predicate IsAttachment(p: Part) { p.disposition == "attachment" || Filename(p) != "" }

  function Decoded(p: Part, codec: Codec): string { codec.decode(p.body, p.encoding) }

  function Info(leaf: Leaf, codec: Codec): Attachment {
    Attachment(codec.word(Filename(leaf.part)), leaf.part.mediaType, |Decoded(leaf.part, codec)|, Dotted(leaf.path))
  }

  predicate Listed(leaf: Leaf) { !leaf.part.readFails && IsAttachment(leaf.part) }

  /** The attachments of the leaves, in order. */
  function Attachments(leaves: seq<Leaf>, codec: Codec): seq<Attachment> {
    if leaves == [] then []
    else (if Listed(leaves[0]) then [Info(leaves[0], codec)] else []) + Attachments(leaves[1..], codec)
  }

  /** The first non-blank text of the given kind among the readable leaves that are not attachments. */
  function FirstText(leaves: seq<Leaf>, kind: string, codec: Codec): string {
    if leaves == [] then ""
    else
      var p := leaves[0].part;
      var t := codec.trim(Decoded(p, codec));
      if !p.readFails && !IsAttachment(p) && HasPrefix(p.mediaType, kind) && t != "" then t
      else FirstText(leaves[1..], kind, codec)
  }

  /** The decoded bytes of the first leaf whose number is the given list of names. */
  function Lookup(leaves: seq<Leaf>, target: seq<string>, codec: Codec): Option<string> {
    if leaves == [] then None
    else if Names(leaves[0].path) == target then Some(Decoded(leaves[0].part, codec))
    else Lookup(leaves[1..], target, codec)
  }

  /* ---------- Numbers are unique and in document order ---------- */

  /** a comes before b in document order and neither contains the other. */
  ghost predicate Precedes(a: seq<int>, b: seq<int>) {
    exists i :: DiffersAt(a, b, i)
  }

  predicate DiffersAt(a: seq<int>, b: seq<int>, i: int) {
    0 <= i < |a| && i < |b| && a[..i] == b[..i] && a[i] < b[i]
  }

  ghost predicate InOrder(leaves: seq<Leaf>) {
    forall i, j | 0 <= i < j < |leaves| :: Precedes(leaves[i].path, leaves[j].path)
  }

  /** Every path below siblings extends the prefix by a number of at least `first`. */
  predicate Below(path: seq<nat>, prefix: seq<nat>, first: nat) {
    |prefix| < |path| && path[..|prefix|] == prefix && path[|prefix|] >= first
  }

  lemma {:induction false} LeavesBelow(parts: seq<Part>, first: nat, prefix: seq<nat>)
    ensures forall leaf | leaf in Leaves(parts, first, prefix) :: Below(leaf.path, prefix, first)
  {
    if parts != [] {
      LeafBelow(parts[0], first, prefix);
      LeavesBelow(parts[1..], first + 1, prefix);
    }
  }

  lemma {:induction false} LeafBelow(p: Part, k: nat, prefix: seq<nat>)
    ensures forall leaf | leaf in LeavesOf(p, prefix + [k]) :: Below(leaf.path, prefix, k) && leaf.path[|prefix|] == k
  {
    if IsMulti(p) && p.boundary != "" {
      var inner := prefix + [k];
      LeavesBelow(p.children, 1, inner);
      forall leaf | leaf in LeavesOf(p, inner)
        ensures Below(leaf.path, prefix, k) && leaf.path[|prefix|] == k
      {
        assert Below(leaf.path, inner, 1);
        assert leaf.path[..|prefix|] == inner[..|prefix|];
        assert leaf.path[|prefix|] == inner[|prefix|];
      }
    }
  }

  /** The leaves of a tree are numbered in document order; so no number occurs twice. */
  lemma {:induction false} LeavesInOrder(parts: seq<Part>, first: nat, prefix: seq<nat>)
    ensures InOrder(Leaves(parts, first, prefix))
  {
    if parts != [] {
      var a, b := LeavesOf(parts[0], prefix + [first]), Leaves(parts[1..], first + 1, prefix);
      LeavesOfInOrder(parts[0], prefix + [first]);
      LeavesInOrder(parts[1..], first + 1, prefix);
      LeafBelow(parts[0], first, prefix);
      LeavesBelow(parts[1..], first + 1, prefix);
      forall i, j | 0 <= i < |a| && 0 <= j < |b|
        ensures Precedes(a[i].path, b[j].path)
      {
        assert a[i] in a && b[j] in b;
        assert DiffersAt(a[i].path, b[j].path, |prefix|);
      }
    }
  }

  lemma {:induction false} LeavesOfInOrder(p: Part, path: seq<nat>)
    ensures InOrder(LeavesOf(p, path))
  {
    if IsMulti(p) && p.boundary != "" {
      LeavesInOrder(p.children, 1, path);
    }
  }

  lemma NamesInjective(a: seq<nat>, b: seq<nat>)
    requires Names(a) == Names(b)
    ensures a == b
  {
    forall i | 0 <= i < |a|
      ensures a[i] == b[i]
    {
      assert Names(a)[i] == Names(b)[i];
      ItoaInjective(a[i], b[i]);
    }
  }

  /** Splitting a dotted number gives back its names. */
  lemma SplitDotted(path: seq<nat>)
    requires path != []
    ensures Split(Dotted(path), '.') == Names(path)
  {
    SplitOfJoin(Names(path), '.');
  }

  lemma DottedInjective(a: seq<nat>, b: seq<nat>)
    requires a != [] && b != [] && Dotted(a) == Dotted(b)
    ensures a == b
  {
    SplitDotted(a);
    SplitDotted(b);
    NamesInjective(a, b);
  }

  /* ---------- Looking up a listed leaf ---------- */

  /** In a list numbered in order, looking up a leaf's names finds that leaf. */
  lemma {:induction false} LookupFinds(leaves: seq<Leaf>, k: nat, codec: Codec)
    requires InOrder(leaves) && k < |leaves|
    ensures Lookup(leaves, Names(leaves[k].path), codec) == Some(Decoded(leaves[k].part, codec))
  {
    if k > 0 {
      assert Precedes(leaves[0].path, leaves[k].path);
      if Names(leaves[0].path) == Names(leaves[k].path) {
        NamesInjective(leaves[0].path, leaves[k].path);
      }
      LookupFinds(leaves[1..], k - 1, codec);
    }
  }

  lemma {:induction false} LookupSound(leaves: seq<Leaf>, target: seq<string>, codec: Codec)
    ensures Lookup(leaves, target, codec).Some? <==> exists k :: 0 <= k < |leaves| && Names(leaves[k].path) == target
  {
    if leaves != [] {
      LookupSound(leaves[1..], target, codec);
      if k :| 0 <= k < |leaves| && Names(leaves[k].path) == target {
        if k > 0 {
          assert leaves[1..][k - 1] == leaves[k];
        }
      }
    }
  }

  lemma {:induction false} AttachmentsFromLeaves(leaves: seq<Leaf>, codec: Codec)
    ensures forall a | a in Attachments(leaves, codec) ::
              exists k :: 0 <= k < |leaves| && Listed(leaves[k]) && a == Info(leaves[k], codec)
    ensures forall k | 0 <= k < |leaves| && Listed(leaves[k]) :: Info(leaves[k], codec) in Attachments(leaves, codec)
    ensures forall k | 0 <= k < |leaves| :: Listed(leaves[k]) <==>
              var p := leaves[k].part;
              !p.readFails && (p.disposition == "attachment" || p.filename != "" || p.name != "")
  {
    if leaves != [] {
      AttachmentsFromLeaves(leaves[1..], codec);
      forall a | a in Attachments(leaves, codec)
        ensures exists k :: 0 <= k < |leaves| && Listed(leaves[k]) && a == Info(leaves[k], codec)
      {
        if a in Attachments(leaves[1..], codec) {
          var k :| 0 <= k < |leaves[1..]| && Listed(leaves[1..][k]) && a == Info(leaves[1..][k], codec);
          assert leaves[k + 1] == leaves[1..][k];
        } else {
          assert a == Info(leaves[0], codec);
        }
      }
    }
  }
}
