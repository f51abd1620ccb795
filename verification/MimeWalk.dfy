/** connectors/email/parse.go: the two walks over a message. */
module MimeWalk {
  import opened Wrappers
  import opened Text
  import opened Decimal
  import opened Mime

  const PLAIN := "text/plain"
  const HTML := "text/html"

  /** What mail.ReadMessage and the top-level Content-Type give. */
  datatype Mail = Unreadable(raw: string)
                | Mail(mediaError: bool, mediaType: string, boundary: string, parts: seq<Part>,
                       encoding: string, body: string)

  predicate IsTree(m: Mail) { m.Mail? && !m.mediaError && HasPrefix(m.mediaType, "multipart/") }

  function MailLeaves(m: Mail): seq<Leaf> {
    if IsTree(m) && m.boundary != "" then Leaves(m.parts, 1, []) else []
  }

  /* ---------- First walk: numbering, sizing, choosing the bodies ---------- */

  class ParsedMessage {
    var textBody: string
    var htmlBody: string
    var attachments: seq<Attachment>

    constructor ()
      ensures View() == Message("", "", [])
    {
      textBody, htmlBody, attachments := "", "", [];
    }

    function View(): Message
      reads this
    {
      Message(textBody, htmlBody, attachments)
    }
  }

  /** A message after the leaves have been seen: first texts win, attachments accumulate. */
  function After(m: Message, leaves: seq<Leaf>, codec: Codec): Message {
    Message(if m.text != "" then m.text else FirstText(leaves, PLAIN, codec),
            if m.html != "" then m.html else FirstText(leaves, HTML, codec),
            m.attachments + Attachments(leaves, codec))
  }

  lemma {:induction false} FirstTextAppend(a: seq<Leaf>, b: seq<Leaf>, kind: string, codec: Codec)
    ensures FirstText(a + b, kind, codec) ==
              if FirstText(a, kind, codec) != "" then FirstText(a, kind, codec) else FirstText(b, kind, codec)
  {
    if a == [] {
      assert a + b == b;
    } else {
      assert (a + b)[1..] == a[1..] + b;
      FirstTextAppend(a[1..], b, kind, codec);
    }
  }

  lemma {:induction false} AttachmentsAppend(a: seq<Leaf>, b: seq<Leaf>, codec: Codec)
    ensures Attachments(a + b, codec) == Attachments(a, codec) + Attachments(b, codec)
  {
    if a == [] {
      assert a + b == b;
    } else {
      assert (a + b)[1..] == a[1..] + b;
      AttachmentsAppend(a[1..], b, codec);
    }
  }

  lemma AfterAppend(m: Message, a: seq<Leaf>, b: seq<Leaf>, codec: Codec)
    ensures After(m, a + b, codec) == After(After(m, a, codec), b, codec)
  {
    FirstTextAppend(a, b, PLAIN, codec);
    FirstTextAppend(a, b, HTML, codec);
    AttachmentsAppend(a, b, codec);
  }

  /** No media type is both plain text and HTML. */
  lemma KindsDisjoint(mediaType: string)
    ensures !(HasPrefix(mediaType, PLAIN) && HasPrefix(mediaType, HTML))
  {
    assert HasPrefix(mediaType, PLAIN) ==> mediaType[5] == mediaType[..|PLAIN|][5] == 'p';
    assert HasPrefix(mediaType, HTML) ==> mediaType[5] == mediaType[..|HTML|][5] == 'h';
  }

  /** What a single leaf contributes: nothing, itself as an attachment, or its own text. */
  lemma OneLeaf(m: Message, leaf: Leaf, codec: Codec)
    ensures var p, t := leaf.part, codec.trim(Decoded(leaf.part, codec));
            After(m, [leaf], codec) ==
              if p.readFails then m
              else if IsAttachment(p) then m.(attachments := m.attachments + [Info(leaf, codec)])
              else Message(if m.text == "" && HasPrefix(p.mediaType, PLAIN) then t else m.text,
                           if m.html == "" && HasPrefix(p.mediaType, HTML) then t else m.html,
                           m.attachments)
  {
    assert [leaf][1..] == [];
    assert FirstText([], PLAIN, codec) == "" && FirstText([], HTML, codec) == "";
    assert Attachments([], codec) == [];
  }

  /** The leaves of the siblings from position idx on. */
  lemma LeavesStep(parts: seq<Part>, idx: nat, path: seq<nat>)
    requires idx < |parts|
    ensures Leaves(parts[idx..], idx + 1, path) ==
              LeavesOf(parts[idx], path + [idx + 1]) + Leaves(parts[idx + 1..], idx + 2, path)
  {
    assert parts[idx..][1..] == parts[idx + 1..];
  }

  /** After these leaves the message is `goal`. */
  ghost predicate Leads(m: Message, leaves: seq<Leaf>, goal: Message, codec: Codec) { After(m, leaves, codec) == goal }

  /** One more sibling on the way. */
  lemma SiblingLeads(m: Message, m': Message, parts: seq<Part>, idx: nat, n: nat, path: seq<nat>, goal: Message, codec: Codec)
    requires idx < |parts| && n == idx + 1 && Leads(m, Leaves(parts[idx..], n, path), goal, codec)
    requires m' == After(m, LeavesOf(parts[idx], path + [n]), codec)
    ensures Leads(m', Leaves(parts[n..], n + 1, path), goal, codec)
  {
    LeavesStep(parts, idx, path);
    AfterAppend(m, LeavesOf(parts[idx], path + [n]), Leaves(parts[n..], n + 1, path), codec);
  }

  lemma NoLeaves(m: Message, codec: Codec)
    ensures After(m, [], codec) == m
  {
  }

  method WalkMultipart(parts: seq<Part>, boundary: string, partPrefix: string, out: ParsedMessage,
                       codec: Codec, ghost path: seq<nat>)
    requires partPrefix == Dotted(path)
    modifies out
    ensures out.View() == After(old(out.View()), if boundary == "" then [] else Leaves(parts, 1, path), codec)
    decreases parts, 1
  {
    if boundary == "" {
      return;
    }
    var idx := 0;
    ghost var goal := After(out.View(), Leaves(parts, 1, path), codec);
    assert parts[0..] == parts;
    while idx < |parts|
      invariant 0 <= idx <= |parts|
      invariant Leads(out.View(), Leaves(parts[idx..], idx + 1, path), goal, codec)
    {
      var part := parts[idx];
      ghost var before := out.View();
      idx := idx + 1;
      var partID := Itoa(idx);
      if partPrefix != "" {
        partID := partPrefix + "." + partID;
      }
      DottedStep(path, idx, partPrefix, partID);
      ProcessPart(part, partID, out, codec, path + [idx]);
      SiblingLeads(before, out.View(), parts, idx - 1, idx, path, goal, codec);
    }
    NoLeaves(out.View(), codec);
  }

  /** The number of a part extends its container's number. */
  lemma DottedStep(path: seq<nat>, k: nat, prefix: string, id: string)
    requires prefix == Dotted(path)
    requires id == if prefix != "" then prefix + "." + Itoa(k) else Itoa(k)
    ensures id == Dotted(path + [k])
  {
    assert Names(path + [k]) == Names(path) + [Itoa(k)];
    if path == [] {
      assert Names(path) == [];
    } else {
      JoinSnoc(Names(path), Itoa(k), '.');
      assert |Names(path)[0]| >= 1;
    }
  }

  method ProcessPart(part: Part, partID: string, out: ParsedMessage, codec: Codec, ghost path: seq<nat>)
    requires partID == Dotted(path)
    modifies out
    ensures out.View() == After(old(out.View()), LeavesOf(part, path), codec)
    decreases part, 0
  {
    if HasPrefix(part.mediaType, "multipart/") {
      WalkMultipart(part.children, part.boundary, partID, out, codec, path);
      return;
    }
    OneLeaf(out.View(), Leaf(path, part), codec);
    var filename := part.filename;
    if filename == "" {
      filename := part.name;
    }
    var isAttachment := part.disposition == "attachment" || filename != "";
    if part.readFails {
      return;
    }
    var decoded := codec.decode(part.body, part.encoding);
    if isAttachment {
      out.attachments := out.attachments + [Attachment(codec.word(filename), part.mediaType, |decoded|, partID)];
      return;
    }
    KindsDisjoint(part.mediaType);
    if HasPrefix(part.mediaType, PLAIN) && out.textBody == "" {
      out.textBody := codec.trim(decoded);
    } else if HasPrefix(part.mediaType, HTML) && out.htmlBody == "" {
      out.htmlBody := codec.trim(decoded);
    }
  }

  /** What parseMessage returns, in terms of the leaves. */
  function Parsed(m: Mail, codec: Codec): Message {
    if m.Unreadable? then Message(codec.trim(m.raw), "", [])
    else if IsTree(m) then After(Message("", "", []), MailLeaves(m), codec)
    else
      var t := codec.trim(codec.decode(m.body, m.encoding));
      if HasPrefix(m.mediaType, HTML) then Message("", t, []) else Message(t, "", [])
  }

  method ParseMessage(m: Mail, codec: Codec) returns (out: ParsedMessage)
    ensures fresh(out) && out.View() == Parsed(m, codec)
  {
    out := new ParsedMessage();
    if m.Unreadable? {
      out.textBody := codec.trim(m.raw);
      return;
    }
    if m.mediaError || !HasPrefix(m.mediaType, "multipart/") {
      var decoded := codec.decode(m.body, m.encoding);
      if HasPrefix(m.mediaType, HTML) {
        out.htmlBody := codec.trim(decoded);
      } else {
        out.textBody := codec.trim(decoded);
      }
      return;
    }
    WalkMultipart(m.parts, m.boundary, "", out, codec, []);
  }

  /* ---------- Second walk: finding a part again ---------- */

  /** A Go slice of strings: a view of the first len cells of a backing array. */
  datatype Slice = Slice(arr: array?<string>, len: nat)

  ghost predicate ValidSlice(s: Slice) {
    if s.arr == null then s.len == 0 else s.len <= s.arr.Length
  }

  ghost function Backing(s: Slice): set<object> {
    if s.arr == null then {} else {s.arr}
  }

  ghost function Contents(s: Slice): seq<string>
    requires ValidSlice(s)
    reads s.arr
  {
    if s.arr == null then [] else s.arr[..s.len]
  }

  /** Go's append of one element: it writes into the spare capacity of the shared array when there is some. */
  method Append(s: Slice, x: string) returns (t: Slice)
    requires ValidSlice(s)
    modifies Backing(s)
    ensures ValidSlice(t) && t.arr != null && (t.arr == s.arr || fresh(t.arr))
    ensures Contents(t) == old(Contents(s)) + [x] && Contents(s) == old(Contents(s))
  {
    if s.arr != null && s.len < s.arr.Length {
      s.arr[s.len] := x;
      return Slice(s.arr, s.len + 1);
    }
    var grown := new string[if s.len == 0 then 1 else 2 * s.len];
    var i := 0;
    while i < s.len
      invariant 0 <= i <= s.len && Contents(s) == old(Contents(s))
      invariant s.arr != null ==> grown[..i] == s.arr[..i]
    {
      grown[i] := s.arr[i];
      i := i + 1;
    }
    grown[s.len] := x;
    t := Slice(grown, s.len + 1);
  }

  method EqualIDs(a: Slice, b: seq<string>) returns (equal: bool)
    requires ValidSlice(a)
    ensures equal == (Contents(a) == b)
  {
    if a.len != |b| {
      return false;
    }
    for i := 0 to a.len
      invariant forall j | 0 <= j < i :: Contents(a)[j] == b[j]
    {
      if a.arr[i] != b[i] {
        assert Contents(a)[i] != b[i];
        return false;
      }
    }
    equal := true;
  }

  lemma {:induction false} LookupAppend(a: seq<Leaf>, b: seq<Leaf>, target: seq<string>, codec: Codec)
    ensures Lookup(a + b, target, codec) ==
              if Lookup(a, target, codec).Some? then Lookup(a, target, codec) else Lookup(b, target, codec)
  {
    if a == [] {
      assert a + b == b;
    } else {
      assert (a + b)[1..] == a[1..] + b;
      LookupAppend(a[1..], b, target, codec);
    }
  }

  lemma LookupStep(parts: seq<Part>, idx: nat, path: seq<nat>, target: seq<string>, codec: Codec)
    requires idx < |parts|
    ensures var found := Lookup(LeavesOf(parts[idx], path + [idx + 1]), target, codec);
            Lookup(Leaves(parts[idx..], idx + 1, path), target, codec) ==
              if found.Some? then found else Lookup(Leaves(parts[idx + 1..], idx + 2, path), target, codec)
  {
    LeavesStep(parts, idx, path);
    LookupAppend(LeavesOf(parts[idx], path + [idx + 1]), Leaves(parts[idx + 1..], idx + 2, path), target, codec);
  }

  /** Sibling turns share the backing array of the prefix: each append may overwrite the cell the
      previous turn wrote, and the prefix itself stays intact. */
  method WalkForPart(parts: seq<Part>, boundary: string, prefix: Slice, target: seq<string>,
                     codec: Codec, ghost path: seq<nat>)
    returns (found: Option<string>)
    requires ValidSlice(prefix) && Contents(prefix) == Names(path)
    modifies Backing(prefix)
    ensures Contents(prefix) == old(Contents(prefix))
    ensures found == Lookup(if boundary == "" then [] else Leaves(parts, 1, path), target, codec)
    decreases parts, 1
  {
    if boundary == "" {
      return None;
    }
    var idx := 0;
    ghost var all := Leaves(parts, 1, path);
    assert parts[0..] == parts;
    while idx < |parts|
      invariant 0 <= idx <= |parts| && Contents(prefix) == Names(path)
      invariant Lookup(Leaves(parts[idx..], idx + 1, path), target, codec) == Lookup(all, target, codec)
    {
      var part := parts[idx];
      LookupStep(parts, idx, path, target, codec);
      idx := idx + 1;
      found := TryPart(part, idx, prefix, target, codec, path);
      if found.Some? {
        return;
      }
    }
    found := None;
  }

  /** Lines 236-249: one sibling. */
  method TryPart(part: Part, idx: nat, prefix: Slice, target: seq<string>, codec: Codec, ghost path: seq<nat>)
    returns (found: Option<string>)
    requires ValidSlice(prefix) && Contents(prefix) == Names(path)
    modifies Backing(prefix)
    ensures Contents(prefix) == old(Contents(prefix))
    ensures found == Lookup(LeavesOf(part, path + [idx]), target, codec)
    decreases part, 0
  {
    var current := Append(prefix, Itoa(idx));
    assert Names(path + [idx]) == Names(path) + [Itoa(idx)];
    if HasPrefix(part.mediaType, "multipart/") {
      found := WalkForPart(part.children, part.boundary, current, target, codec, path + [idx]);
      assert prefix.arr == current.arr ==> Contents(prefix) == Contents(current)[..prefix.len];
    } else {
      var same := EqualIDs(current, target);
      found := if same then Some(codec.decode(part.body, part.encoding)) else None;
    }
  }

  /** What extractAttachmentBytes returns, in terms of the leaves. */
  function Extracted(m: Mail, partID: string, codec: Codec): Option<string> {
    Lookup(MailLeaves(m), Split(partID, '.'), codec)
  }

  method ExtractAttachmentBytes(m: Mail, partID: string, codec: Codec) returns (found: Option<string>)
    ensures found == Extracted(m, partID, codec)
  {
    if m.Unreadable? {
      return None;
    }
    if m.mediaError || !HasPrefix(m.mediaType, "multipart/") {
      return None;
    }
    found := WalkForPart(m.parts, m.boundary, Slice(null, 0), Split(partID, '.'), codec, []);
  }

  /* ---------- Part numbers as text ---------- */

  predicate ValidPartID(s: string) { s != "" && forall p | p in Split(s, '.') :: p != "" && Atoi(p).Some? }

  /** PartIDValid: a loop over the fields. */
  method PartIDValid(s: string) returns (valid: bool)
    ensures valid == ValidPartID(s)
  {
    if s == "" {
      return false;
    }
    var fields := Split(s, '.');
    for i := 0 to |fields|
      invariant forall j | 0 <= j < i :: fields[j] != "" && Atoi(fields[j]).Some?
    {
      assert fields[i] in fields;
      if fields[i] == "" {
        return false;
      }
      if Atoi(fields[i]).None? {
        return false;
      }
    }
    valid := true;
  }

  /** imapPartSpec: nil for the empty string or a field that is no number. */
  function PartSpec(s: string): Option<seq<int>> {
    if s == "" || exists p | p in Split(s, '.') :: Atoi(p).None? then None
    else Some(Numbers(Split(s, '.')))
  }

  function Numbers(fields: seq<string>): (ns: seq<int>)
    requires forall p | p in fields :: Atoi(p).Some?
    ensures |ns| == |fields| && forall i | 0 <= i < |fields| :: Atoi(fields[i]) == Some(ns[i])
  {
    seq(|fields|, i requires 0 <= i < |fields| => Atoi(fields[i]).value)
  }

  method ImapPartSpec(s: string) returns (spec: Option<seq<int>>)
    ensures spec == PartSpec(s)
  {
    if s == "" {
      return None;
    }
    var fields := Split(s, '.');
    var ns: seq<int> := [];
    for i := 0 to |fields|
      invariant |ns| == i && forall j | 0 <= j < i :: Atoi(fields[j]) == Some(ns[j])
    {
      var n := Atoi(fields[i]);
      if n.None? {
        return None;
      }
      ns := ns + [n.value];
    }
    assert forall p | p in fields :: Atoi(p).Some?;
    assert ns == Numbers(fields);
    spec := Some(ns);
  }

  /* ---------- The two walks agree ---------- */

  /** Go counts siblings in an int. */
  predicate FitsInt(parts: seq<Part>) {
    |parts| <= MAX_INT64 && forall p | p in parts :: FitsInt(p.children)
  }

  predicate IntPath(path: seq<nat>) { forall k | k in path :: 1 <= k <= MAX_INT64 }

  lemma {:induction false} LeavesFitInt(parts: seq<Part>, first: nat, prefix: seq<nat>)
    requires IntPath(prefix) && first >= 1 && first - 1 + |parts| <= MAX_INT64
    requires forall p | p in parts :: FitsInt(p.children)
    ensures forall leaf | leaf in Leaves(parts, first, prefix) :: IntPath(leaf.path)
  {
    if parts != [] {
      var p := parts[0];
      if IsMulti(p) && p.boundary != "" {
        LeavesFitInt(p.children, 1, prefix + [first]);
      }
      LeavesFitInt(parts[1..], first + 1, prefix);
    }
  }

  /** A dotted number is valid and parses back to its path. */
  lemma DottedParses(path: seq<nat>)
    requires path != [] && IntPath(path)
    ensures ValidPartID(Dotted(path)) && PartSpec(Dotted(path)) == Some(path)
  {
    SplitDotted(path);
    var names := Names(path);
    forall i | 0 <= i < |path|
      ensures names[i] != "" && Atoi(names[i]) == Some(path[i] as int)
    {
      assert path[i] in path;
      AtoiOfFormatInt(path[i]);
    }
    assert Dotted(path) != "" by {
      assert Split("", '.') == [""];
      assert names[0] != "";
    }
    assert Numbers(names) == path;
  }

  /** Every attachment the first walk lists is found by the second walk under its number, with decoded
      bytes of exactly the listed size; the number is valid and parses to the part's index path. */
  lemma ListedPartsAreFound(m: Mail, codec: Codec, a: Attachment)
    requires a in Parsed(m, codec).attachments
    requires m.Mail? ==> FitsInt(m.parts)
    ensures exists k :: 0 <= k < |MailLeaves(m)| && Listed(MailLeaves(m)[k]) && a == Info(MailLeaves(m)[k], codec)
              && Extracted(m, a.partID, codec) == Some(Decoded(MailLeaves(m)[k].part, codec))
              && a.size == |Decoded(MailLeaves(m)[k].part, codec)|
              && ValidPartID(a.partID) && PartSpec(a.partID) == Some(MailLeaves(m)[k].path)
  {
    var leaves := MailLeaves(m);
    AttachmentsFromLeaves(leaves, codec);
    var k :| 0 <= k < |leaves| && Listed(leaves[k]) && a == Info(leaves[k], codec);
    LeavesInOrder(m.parts, 1, []);
    LeavesBelow(m.parts, 1, []);
    LeavesFitInt(m.parts, 1, []);
    assert leaves[k] in leaves;
    LookupFinds(leaves, k, codec);
    SplitDotted(leaves[k].path);
    DottedParses(leaves[k].path);
  }

  /** The second walk finds something exactly when the text is the number of some leaf. */
  lemma ExtractedExactly(m: Mail, partID: string, codec: Codec)
    ensures Extracted(m, partID, codec).Some?
       <==> exists k :: 0 <= k < |MailLeaves(m)| && Dotted(MailLeaves(m)[k].path) == partID
  {
    var leaves := MailLeaves(m);
    var target := Split(partID, '.');
    LookupSound(leaves, target, codec);
    if m.Mail? {
      LeavesBelow(m.parts, 1, []);
    }
    JoinOfSplit(partID, '.');
    forall k | 0 <= k < |leaves|
      ensures Names(leaves[k].path) == target <==> Dotted(leaves[k].path) == partID
    {
      assert leaves[k] in leaves;
      SplitDotted(leaves[k].path);
    }
  }

  /** Attachments are listed in document order, which their numbers show; so no two numbers are equal. */
  ghost predicate Numbered(listed: seq<Attachment>) {
    && (forall i | 0 <= i < |listed| :: PartSpec(listed[i].partID).Some?)
    && (forall i, j | 0 <= i < j < |listed| :: listed[i].partID != listed[j].partID
          && Precedes(PartSpec(listed[i].partID).value, PartSpec(listed[j].partID).value))
  }

  /** Number `id` is that of a part after the one at `path`. */
  ghost predicate Follows(path: seq<int>, id: string) {
    PartSpec(id).Some? && Precedes(path, PartSpec(id).value)
  }

  lemma RestFollows(first: Leaf, rest: seq<Leaf>, codec: Codec, a: Attachment)
    requires forall k | 0 <= k < |rest| ::
               rest[k].path != [] && IntPath(rest[k].path) && Precedes(first.path, rest[k].path)
    requires a in Attachments(rest, codec)
    ensures Follows(first.path, a.partID)
  {
    AttachmentsFromLeaves(rest, codec);
    var k :| 0 <= k < |rest| && Listed(rest[k]) && a == Info(rest[k], codec);
    DottedParses(rest[k].path);
  }

  lemma NumberedCons(a: Attachment, path: seq<int>, tail: seq<Attachment>)
    requires PartSpec(a.partID) == Some(path) && Numbered(tail)
    requires forall j | 0 <= j < |tail| :: Follows(path, tail[j].partID)
    ensures Numbered([a] + tail)
  {
    var all := [a] + tail;
    forall j | 0 < j < |all|
      ensures PartSpec(all[j].partID).Some? && Precedes(path, PartSpec(all[j].partID).value)
      ensures all[j].partID != a.partID
    {
      assert all[j] == tail[j - 1];
      assert Follows(path, tail[j - 1].partID);
    }
  }

  lemma {:induction false} AttachmentsNumbered(leaves: seq<Leaf>, codec: Codec)
    requires InOrder(leaves) && forall k | 0 <= k < |leaves| :: leaves[k].path != [] && IntPath(leaves[k].path)
    ensures Numbered(Attachments(leaves, codec))
  {
    if leaves != [] {
      var rest, first := leaves[1..], leaves[0];
      AttachmentsNumbered(rest, codec);
      if Listed(first) {
        var tail := Attachments(rest, codec);
        DottedParses(first.path);
        forall j | 0 <= j < |tail|
          ensures Follows(first.path, tail[j].partID)
        {
          RestFollows(first, rest, codec, tail[j]);
        }
        NumberedCons(Info(first, codec), first.path, tail);
      }
    }
  }

  lemma PartIDsInOrder(m: Mail, codec: Codec)
    requires m.Mail? ==> FitsInt(m.parts)
    ensures Numbered(Parsed(m, codec).attachments)
  {
    if IsTree(m) {
      LeavesInOrder(m.parts, 1, []);
      LeavesBelow(m.parts, 1, []);
      LeavesFitInt(m.parts, 1, []);
      AttachmentsNumbered(MailLeaves(m), codec);
      assert [] + Attachments(MailLeaves(m), codec) == Attachments(MailLeaves(m), codec);
    }
  }
}
