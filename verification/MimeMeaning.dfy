/** connectors/email/parse.go: what the two walks return, in terms of the part tree and the fields of its parts. */
module MimeMeaning {
  import opened Wrappers
  import opened Text
  import opened Mime
  import opened MimeWalk

  /* ---------- The leaves are the parts that hold no parts ---------- */

  /** The part at an index path below siblings numbered from `first`: each part on the way is a multipart part
      with a boundary. */
  predicate PartAt(parts: seq<Part>, first: nat, path: seq<nat>, part: Part)
    decreases |path|
  {
    && path != [] && first <= path[0] < first + |parts|
    && var here := parts[path[0] - first];
       if |path| == 1 then here == part
       else "multipart/" <= here.mediaType && here.boundary != "" && PartAt(here.children, 1, path[1..], part)
  }

  /** The same numbers, one sibling further on. */
  lemma PartBehind(parts: seq<Part>, first: nat, path: seq<nat>, part: Part)
    requires parts != [] && path != [] && path[0] != first
    ensures PartAt(parts, first, path, part) <==> PartAt(parts[1..], first + 1, path, part)
  {
    if first < path[0] < first + |parts| {
      assert parts[1..][path[0] - (first + 1)] == parts[path[0] - first];
    }
  }

  lemma PartInside(parts: seq<Part>, first: nat, path: seq<nat>, part: Part)
    requires parts != [] && |path| > 1 && path[0] == first
    ensures PartAt(parts, first, path, part) <==>
              "multipart/" <= parts[0].mediaType && parts[0].boundary != "" && PartAt(parts[0].children, 1, path[1..], part)
  {
  }

  /** Every leaf is a part at its path and not a container. */
  lemma {:induction false} LeafIsPart(parts: seq<Part>, first: nat, prefix: seq<nat>, path: seq<nat>, leaf: Leaf)
    requires leaf in Leaves(parts, first, prefix) && leaf.path == prefix + path
    ensures PartAt(parts, first, path, leaf.part) && !("multipart/" <= leaf.part.mediaType)
    decreases parts
  {
    var inner := prefix + [first];
    LeavesBelow(parts, first, prefix);
    assert Below(leaf.path, prefix, first) && path[0] == leaf.path[|prefix|];
    if leaf in LeavesOf(parts[0], inner) {
      LeafBelow(parts[0], first, prefix);
      if IsMulti(parts[0]) {
        LeavesBelow(parts[0].children, 1, inner);
        assert Below(leaf.path, inner, 1) && leaf.path == inner + path[1..];
        LeafIsPart(parts[0].children, 1, inner, path[1..], leaf);
      } else {
        assert leaf == Leaf(inner, parts[0]) && path == [first];
      }
    } else {
      LeavesBelow(parts[1..], first + 1, prefix);
      LeafIsPart(parts[1..], first + 1, prefix, path, leaf);
      PartBehind(parts, first, path, leaf.part);
    }
  }

  /** Every part that is not a container is a leaf. */
  lemma {:induction false} PartIsLeaf(parts: seq<Part>, first: nat, prefix: seq<nat>, path: seq<nat>, part: Part)
    requires PartAt(parts, first, path, part) && !("multipart/" <= part.mediaType)
    ensures Leaf(prefix + path, part) in Leaves(parts, first, prefix)
    decreases parts
  {
    var inner := prefix + [first];
    if path[0] != first {
      PartBehind(parts, first, path, part);
      PartIsLeaf(parts[1..], first + 1, prefix, path, part);
    } else if |path| == 1 {
      assert path == [first] && LeavesOf(parts[0], inner) == [Leaf(inner, part)];
    } else {
      PartInside(parts, first, path, part);
      PartIsLeaf(parts[0].children, 1, inner, path[1..], part);
      assert inner + path[1..] == prefix + path;
    }
  }

  /** Message m holds part p at an index path, and p is not a container. */
  predicate Holds(m: Mail, path: seq<nat>, p: Part) {
    && m.Mail? && !m.mediaError && "multipart/" <= m.mediaType && m.boundary != ""
    && PartAt(m.parts, 1, path, p) && !("multipart/" <= p.mediaType)
  }

  lemma HoldsLeaf(m: Mail, path: seq<nat>, p: Part)
    ensures Holds(m, path, p) <==> Leaf(path, p) in MailLeaves(m)
  {
    if Holds(m, path, p) {
      PartIsLeaf(m.parts, 1, [], path, p);
      assert [] + path == path;
    }
    if Leaf(path, p) in MailLeaves(m) {
      assert [] + path == path;
      LeafIsPart(m.parts, 1, [], path, Leaf(path, p));
    }
  }

  /* ---------- Attachments ---------- */

  /** A part is listed under its number exactly when it can be read and says it is an attachment or bears a
      filename or a name; the entry carries the decoded name, the media type and the decoded size. */
  lemma ListedExactly(m: Mail, codec: Codec, path: seq<nat>, p: Part)
    requires Holds(m, path, p)
    ensures (exists a :: a in Parsed(m, codec).attachments && a.partID == Dotted(path)) <==>
              !p.readFails && (p.disposition == "attachment" || p.filename != "" || p.name != "")
    ensures forall a | a in Parsed(m, codec).attachments && a.partID == Dotted(path) ::
              a == Attachment(codec.word(if p.filename != "" then p.filename else p.name), p.mediaType,
                              |codec.decode(p.body, p.encoding)|, Dotted(path))
  {
    var leaves := MailLeaves(m);
    HoldsLeaf(m, path, p);
    LeavesInOrder(m.parts, 1, []);
    LeavesBelow(m.parts, 1, []);
    AttachmentsFromLeaves(leaves, codec);
    var i :| 0 <= i < |leaves| && leaves[i] == Leaf(path, p);
    forall a | a in Parsed(m, codec).attachments && a.partID == Dotted(path)
      ensures Listed(leaves[i]) && a == Info(leaves[i], codec)
    {
      var k :| 0 <= k < |leaves| && Listed(leaves[k]) && a == Info(leaves[k], codec);
      SameNumber(leaves, i, k);
    }
    if !p.readFails && (p.disposition == "attachment" || p.filename != "" || p.name != "") {
      assert Info(leaves[i], codec) in Parsed(m, codec).attachments;
    }
  }

  lemma DistinctPaths(leaves: seq<Leaf>)
    requires InOrder(leaves)
    ensures forall i, k | 0 <= i < k < |leaves| :: leaves[i].path != leaves[k].path
  {
    forall i, k | 0 <= i < k < |leaves|
      ensures leaves[i].path != leaves[k].path
    {
      assert Precedes(leaves[i].path, leaves[k].path);
    }
  }

  /** Leaves with one number are one leaf. */
  lemma SameNumber(leaves: seq<Leaf>, i: nat, k: nat)
    requires InOrder(leaves) && i < |leaves| && k < |leaves| && Dotted(leaves[i].path) == Dotted(leaves[k].path)
    requires leaves[i].path != [] && leaves[k].path != []
    ensures i == k
  {
    DistinctPaths(leaves);
    DottedInjective(leaves[i].path, leaves[k].path);
  }

  /** Nothing else is listed. */
  lemma ListedIsHeld(m: Mail, codec: Codec, a: Attachment)
    requires a in Parsed(m, codec).attachments
    ensures exists path, p :: Holds(m, path, p) && a.partID == Dotted(path)
  {
    var leaves := MailLeaves(m);
    AttachmentsFromLeaves(leaves, codec);
    var k :| 0 <= k < |leaves| && Listed(leaves[k]) && a == Info(leaves[k], codec);
    assert leaves[k] == Leaf(leaves[k].path, leaves[k].part) && leaves[k] in leaves;
    HoldsLeaf(m, leaves[k].path, leaves[k].part);
  }

  /** The second walk returns the decoded bytes of any part by its number. */
  lemma ExtractsPart(m: Mail, codec: Codec, path: seq<nat>, p: Part)
    requires Holds(m, path, p)
    ensures Extracted(m, Dotted(path), codec) == Some(codec.decode(p.body, p.encoding))
  {
    var leaves := MailLeaves(m);
    HoldsLeaf(m, path, p);
    LeavesInOrder(m.parts, 1, []);
    LeavesBelow(m.parts, 1, []);
    var i :| 0 <= i < |leaves| && leaves[i] == Leaf(path, p);
    LookupFinds(leaves, i, codec);
    SplitDotted(path);
  }

  /* ---------- Bodies ---------- */

  /** Part p can give the text of a kind: it can be read, is no attachment, has that kind and is not blank. */
  predicate Gives(p: Part, kind: string, codec: Codec) {
    && !p.readFails && p.disposition != "attachment" && p.filename == "" && p.name == ""
    && kind <= p.mediaType && codec.trim(codec.decode(p.body, p.encoding)) != ""
  }

  /** The text is that of the first leaf that can give one. */
  lemma {:induction false} FirstTextMeans(leaves: seq<Leaf>, kind: string, codec: Codec)
    ensures var t := FirstText(leaves, kind, codec);
            if t == "" then forall k | 0 <= k < |leaves| :: !Gives(leaves[k].part, kind, codec)
            else exists k :: 0 <= k < |leaves| && Gives(leaves[k].part, kind, codec)
                   && t == codec.trim(codec.decode(leaves[k].part.body, leaves[k].part.encoding))
                   && forall j | 0 <= j < k :: !Gives(leaves[j].part, kind, codec)
  {
    if leaves != [] {
      var rest := leaves[1..];
      FirstTextMeans(rest, kind, codec);
      var p := leaves[0].part;
      if !Gives(p, kind, codec) {
        var t := FirstText(rest, kind, codec);
        assert FirstText(leaves, kind, codec) == t;
        if t != "" {
          var k :| 0 <= k < |rest| && Gives(rest[k].part, kind, codec)
                   && t == codec.trim(codec.decode(rest[k].part.body, rest[k].part.encoding))
                   && forall j | 0 <= j < k :: !Gives(rest[j].part, kind, codec);
          assert leaves[k + 1] == rest[k];
          forall j | 0 <= j < k + 1
            ensures !Gives(leaves[j].part, kind, codec)
          {
            if j > 0 { assert leaves[j] == rest[j - 1]; }
          }
        } else {
          forall j | 0 <= j < |leaves|
            ensures !Gives(leaves[j].part, kind, codec)
          {
            if j > 0 { assert leaves[j] == rest[j - 1]; }
          }
        }
      }
    }
  }

  /** The bodies of a multipart message are the first texts, plain and HTML, among its leaves in document order. */
  lemma BodiesMean(m: Mail, codec: Codec)
    requires m.Mail? && !m.mediaError && "multipart/" <= m.mediaType
    ensures Parsed(m, codec).text == FirstText(MailLeaves(m), "text/plain", codec)
    ensures Parsed(m, codec).html == FirstText(MailLeaves(m), "text/html", codec)
  {
  }

  /** Any other message is one body: HTML exactly for text/html; a message that does not parse is its raw text. */
  lemma SinglePartMeans(m: Mail, codec: Codec)
    requires m.Unreadable? || m.mediaError || !("multipart/" <= m.mediaType)
    ensures Parsed(m, codec).attachments == []
    ensures m.Unreadable? ==> Parsed(m, codec).text == codec.trim(m.raw) && Parsed(m, codec).html == ""
    ensures m.Mail? ==>
              var body := codec.trim(codec.decode(m.body, m.encoding));
              if "text/html" <= m.mediaType then Parsed(m, codec) == Message("", body, [])
              else Parsed(m, codec) == Message(body, "", [])
  {
  }
}
