/** Path algebra: connectors/file/local.go resolveKey and relKey, and cmd/pgf/paths.go pathUnderAny,
    over Unix paths. Clean, Join and Rel are those of Go's path/filepath on rooted paths. */
module Paths {
  import opened Wrappers
  import opened Text

  /* ---------- Rooted paths and their segments ---------- */

  predicate IsSegment(s: string) { s != "" && s != "." && s != ".." && '/' !in s }

  ghost predicate AreSegments(segs: seq<string>) { forall i | 0 <= i < |segs| :: IsSegment(segs[i]) }

  /** Walk along path fields from a directory: "" and "." stay, ".." goes up unless at the top. */
  function Walk(dir: seq<string>, fields: seq<string>): seq<string>
    decreases |fields|
  {
    if fields == [] then dir
    else
      var f, rest := fields[0], fields[1..];
      if f == "" || f == "." then Walk(dir, rest)
      else if f == ".." then Walk(if dir == [] then [] else dir[..|dir| - 1], rest)
      else Walk(dir + [f], rest)
  }

  /** The segments a rooted path denotes. */
  function Segments(path: string): seq<string> { Walk([], Split(path, '/')) }

  function Render(segs: seq<string>): string {
    if segs == [] then "/" else "/" + Join(segs, '/')
  }

  /** filepath.Clean of a rooted path. */
  function Clean(path: string): string { Render(Segments(path)) }

  /** A rooted path in clean form, as filepath.Abs returns. */
  predicate IsClean(path: string) { Clean(path) == path }

  /** filepath.Join of two non-empty elements, the first rooted. */
  function JoinPath(root: string, key: string): string { Clean(root + ['/'] + key) }

  function CommonLength(a: seq<string>, b: seq<string>): (n: nat)
    ensures n <= |a| && n <= |b| && a[..n] == b[..n]
    ensures n < |a| && n < |b| ==> a[n] != b[n]
  {
    if a == [] || b == [] || a[0] != b[0] then 0
    else
      var n := CommonLength(a[1..], b[1..]);
      assert a[..n + 1] == [a[0]] + a[1..][..n] && b[..n + 1] == [b[0]] + b[1..][..n];
      n + 1
  }

  function Ups(n: nat): (r: seq<string>)
    ensures |r| == n && forall i | 0 <= i < n :: r[i] == ".."
  {
    seq(n, i => "..")
  }

  /** filepath.Rel of two clean rooted paths: up to the common part, then down. */
  function Rel(base: string, target: string): string {
    var b, t := Segments(base), Segments(target);
    var n := CommonLength(b, t);
    var parts := Ups(|b| - n) + t[n..];
    if parts == [] then "." else Join(parts, '/')
  }

  lemma {:induction false} WalkAppend(dir: seq<string>, a: seq<string>, b: seq<string>)
    ensures Walk(dir, a + b) == Walk(Walk(dir, a), b)
    decreases |a|
  {
    if a == [] {
      assert a + b == b;
    } else {
      var f, rest := a[0], a[1..];
      assert (a + b)[1..] == rest + b;
      WalkAppend(dir, rest, b);
      WalkAppend(if dir == [] then [] else dir[..|dir| - 1], rest, b);
      WalkAppend(dir + [f], rest, b);
    }
  }

  lemma {:induction false} WalkSegments(dir: seq<string>, segs: seq<string>)
    requires AreSegments(segs)
    ensures Walk(dir, segs) == dir + segs
    decreases |segs|
  {
    if segs != [] {
      WalkSegments(dir + [segs[0]], segs[1..]);
    }
  }

  lemma {:induction false} WalkYieldsSegments(dir: seq<string>, fields: seq<string>)
    requires AreSegments(dir) && forall f | f in fields :: '/' !in f
    ensures AreSegments(Walk(dir, fields))
    decreases |fields|
  {
    if fields != [] {
      var f, rest := fields[0], fields[1..];
      if f == "" || f == "." {
        WalkYieldsSegments(dir, rest);
      } else if f == ".." {
        WalkYieldsSegments(if dir == [] then [] else dir[..|dir| - 1], rest);
      } else {
        WalkYieldsSegments(dir + [f], rest);
      }
    }
  }

  lemma SegmentsAreSegments(path: string)
    ensures AreSegments(Segments(path))
  {
    WalkYieldsSegments([], Split(path, '/'));
  }

  /** The fields of a rendered path: an empty one, then its segments. */
  lemma SplitRender(segs: seq<string>)
    requires AreSegments(segs)
    ensures Split(Render(segs), '/') == [""] + if segs == [] then [""] else segs
  {
    if segs == [] {
      SplitAppend("", "", '/');
      assert "" + ['/'] + "" == "/";
    } else {
      SplitAppend("", Join(segs, '/'), '/');
      assert "" + ['/'] + Join(segs, '/') == Render(segs);
      SplitOfJoin(segs, '/');
    }
  }

  /** Rendering and reading back is the identity on segment lists. */
  lemma SegmentsOfRender(segs: seq<string>)
    requires AreSegments(segs)
    ensures Segments(Render(segs)) == segs
  {
    SplitRender(segs);
    var tail := if segs == [] then [""] else segs;
    assert ([""] + tail)[1..] == tail;
    if segs == [] {
      assert tail[1..] == [];
      assert Walk([], tail) == Walk([], []);
    } else {
      WalkSegments([], segs);
    }
  }

  /** Joining a key to a root is walking along the key from the root. */
  lemma JoinWalks(root: string, key: string)
    ensures Segments(JoinPath(root, key)) == Walk(Segments(root), Split(key, '/'))
    ensures JoinPath(root, key) == Render(Walk(Segments(root), Split(key, '/')))
  {
    SplitAppend(root, key, '/');
    WalkAppend([], Split(root, '/'), Split(key, '/'));
    SegmentsAreSegments(root + ['/'] + key);
    SegmentsOfRender(Segments(root + ['/'] + key));
  }

  /* ---------- resolveKey and relKey ---------- */

  function ResolveKey(root: string, key: string): Result<string> {
    var clean := TrimPrefix(key, "/");
    if clean == "" then Ok(root)
    else
      var abs := Clean(JoinPath(root, clean));
      var rel := Rel(root, abs);
      if rel == ".." || HasPrefix(rel, "../") then Err else Ok(abs)
  }

  function RelKey(root: string, abs: string): string {
    var rel := Rel(root, abs);
    if rel == "." then "" else rel
  }

  /** The segments a key leads to from the root. */
  function Target(root: string, key: string): seq<string> {
    Walk(Segments(root), Split(TrimPrefix(key, "/"), '/'))
  }

  /** A relative path leads out exactly when its first part is "..". */
  lemma EscapesByFirstPart(parts: seq<string>, rel: string)
    requires parts != [] && (forall i | 0 <= i < |parts| :: '/' !in parts[i]) && rel == Join(parts, '/')
    ensures (rel == ".." || HasPrefix(rel, "../")) <==> parts[0] == ".."
  {
    SplitOfJoin(parts, '/');
    if rel == ".." {
      SplitNone(rel, '/');
    } else if HasPrefix(rel, "../") {
      FirstPartUp(rel);
    }
    if parts[0] == ".." && |parts| > 1 {
      UpPrefix(Join(parts[1..], '/'));
      assert rel == ".." + ['/'] + Join(parts[1..], '/');
    }
  }

  lemma FirstPartUp(rel: string)
    requires HasPrefix(rel, "../")
    ensures Split(rel, '/')[0] == ".."
  {
    assert rel == ".." + ['/'] + rel[3..];
    SplitFirst("..", rel[3..], '/');
  }

  lemma UpPrefix(rest: string)
    ensures HasPrefix(".." + ['/'] + rest, "../")
  {
    assert (".." + ['/'] + rest)[..3] == "../";
  }

  lemma CommonOfPrefix(a: seq<string>, b: seq<string>)
    ensures CommonLength(a, b) == |a| <==> a <= b
  {
    assert a <= b ==> forall i | 0 <= i < |a| :: a[i] == b[i];
  }

  /** A path that goes up from the base leads out. */
  lemma UpEscapes(ups: nat, down: seq<string>, rel: string)
    requires ups > 0 && AreSegments(down) && rel == Join(Ups(ups) + down, '/')
    ensures rel == ".." || HasPrefix(rel, "../")
  {
    var parts := Ups(ups) + down;
    assert parts[0] == Ups(ups)[0] == "..";
    forall i | 0 <= i < |parts|
      ensures '/' !in parts[i]
    {
      if i >= ups { assert parts[i] == down[i - ups]; } else { assert parts[i] == ".."; }
    }
    EscapesByFirstPart(parts, rel);
  }

  /** A path that only goes down stays in. */
  lemma DownStays(down: seq<string>, rel: string)
    requires AreSegments(down) && rel == if down == [] then "." else Join(down, '/')
    ensures !(rel == ".." || HasPrefix(rel, "../"))
  {
    if down != [] {
      assert IsSegment(down[0]);
      EscapesByFirstPart(down, rel);
    }
  }

  /** The same on segment lists. */
  lemma RelParts(base: seq<string>, target: seq<string>, n: nat, parts: seq<string>, rel: string)
    requires AreSegments(target) && n == CommonLength(base, target)
    requires parts == Ups(|base| - n) + target[n..] && rel == if parts == [] then "." else Join(parts, '/')
    ensures (rel == ".." || HasPrefix(rel, "../")) <==> n < |base|
    ensures n == |base| ==> rel == if n == |target| then "." else Join(target[n..], '/')
  {
    if n < |base| {
      UpEscapes(|base| - n, target[n..], rel);
    } else {
      assert parts == target[n..];
      DownStays(target[n..], rel);
    }
  }

  lemma RelEscapes(root: string, target: seq<string>, rel: string)
    requires AreSegments(target) && rel == Rel(root, Render(target))
    ensures (rel == ".." || HasPrefix(rel, "../")) <==> !(Segments(root) <= target)
    ensures Segments(root) <= target ==>
              rel == if |Segments(root)| == |target| then "." else Join(target[|Segments(root)|..], '/')
  {
    var b := Segments(root);
    SegmentsOfRender(target);
    CommonOfPrefix(b, target);
    var n := CommonLength(b, target);
    RelParts(b, target, n, Ups(|b| - n) + target[n..], rel);
  }

  /** resolveKey accepts a key exactly when the path it leads to lies under the root, segment by
      segment, and then returns that path. */
  lemma ResolveExactly(root: string, key: string)
    requires IsClean(root)
    ensures ResolveKey(root, key) ==
              if Segments(root) <= Target(root, key) then Ok(Render(Target(root, key))) else Err
  {
    var clean, b, t := TrimPrefix(key, "/"), Segments(root), Target(root, key);
    SegmentsAreSegments(root);
    if clean == "" {
      WalkNowhere(b);
    } else {
      JoinWalks(root, clean);
      WalkYieldsSegments(b, Split(clean, '/'));
      SegmentsOfRender(t);
      RelEscapes(root, t, Rel(root, Render(t)));
    }
  }

  /** The key of a path b + rest under the root b, and where it leads. */
  lemma KeyOfRest(root: string, b: seq<string>, rest: seq<string>)
    requires b == Segments(root) && AreSegments(b) && AreSegments(rest)
    ensures RelKey(root, Render(b + rest)) == if rest == [] then "" else Join(rest, '/')
    ensures Target(root, RelKey(root, Render(b + rest))) == b + rest
  {
    var t := b + rest;
    RelEscapes(root, t, Rel(root, Render(t)));
    assert t[|b|..] == rest;
    if rest == [] {
      assert TrimPrefix("", "/") == "";
      WalkNowhere(b);
      assert b + rest == b;
    } else {
      JoinStart(rest);
      SplitOfJoin(rest, '/');
      WalkSegments(b, rest);
    }
  }

  /** For an accepted path, resolving its key gives the path back. */
  lemma KeyRoundTrip(root: string, key: string)
    requires IsClean(root) && ResolveKey(root, key).Ok?
    ensures var p := ResolveKey(root, key).value;
            ResolveKey(root, RelKey(root, p)) == Ok(p)
  {
    var b, t := Segments(root), Target(root, key);
    ResolveExactly(root, key);
    SegmentsAreSegments(root);
    WalkYieldsSegments(b, Split(TrimPrefix(key, "/"), '/'));
    ResolvesToItself(root, b, t);
  }

  lemma ResolvesToItself(root: string, b: seq<string>, t: seq<string>)
    requires IsClean(root) && b == Segments(root) && b <= t && AreSegments(b) && AreSegments(t)
    ensures ResolveKey(root, RelKey(root, Render(t))) == Ok(Render(t))
  {
    assert t == b + t[|b|..];
    KeyOfRest(root, b, t[|b|..]);
    ResolveExactly(root, RelKey(root, Render(t)));
  }

  lemma WalkNowhere(dir: seq<string>)
    ensures Walk(dir, Split("", '/')) == dir
  {
    assert Split("", '/') == [""] && [""][1..] == [];
  }

  /** A key made of segments does not begin with a slash and is not ".". */
  lemma JoinStart(segs: seq<string>)
    requires segs != [] && AreSegments(segs)
    ensures !HasPrefix(Join(segs, '/'), "/") && Join(segs, '/') != "" && Join(segs, '/') != "."
  {
    assert Join(segs, '/')[0] == segs[0][0] != '/';
    if Join(segs, '/') == "." {
      SplitOfJoin(segs, '/');
      SplitNone(".", '/');
    }
  }

  /** Resolving and naming again is a normal form: doing it twice changes nothing. */
  lemma NormalForm(root: string, key: string)
    requires IsClean(root) && ResolveKey(root, key).Ok?
    ensures var k := RelKey(root, ResolveKey(root, key).value);
            ResolveKey(root, k).Ok? && RelKey(root, ResolveKey(root, k).value) == k
  {
    KeyRoundTrip(root, key);
  }

  /* ---------- What a key's fields do ---------- */

  lemma WalkOne(dir: seq<string>, f: string, rest: seq<string>)
    ensures Walk(dir, [f] + rest) ==
              if f == "" || f == "." then Walk(dir, rest)
              else if f == ".." then Walk(if dir == [] then [] else dir[..|dir| - 1], rest)
              else Walk(dir + [f], rest)
  {
    assert ([f] + rest)[1..] == rest;
  }

  /** Empty fields and dots stay, a name goes down, and dot-dot undoes it; at the top it does nothing. */
  lemma FieldsMean(dir: seq<string>, name: string, rest: seq<string>)
    ensures Walk(dir, []) == dir
    ensures Walk(dir, [""] + rest) == Walk(dir, rest) && Walk(dir, ["."] + rest) == Walk(dir, rest)
    ensures IsSegment(name) ==> Walk(dir, [name] + rest) == Walk(dir + [name], rest)
    ensures IsSegment(name) ==> Walk(dir, [name] + ([".."] + rest)) == Walk(dir, rest)
    ensures Walk([], [".."] + rest) == Walk([], rest)
  {
    WalkOne(dir, "", rest);
    WalkOne(dir, ".", rest);
    WalkOne([], "..", rest);
    WalkOne(dir, name, rest);
    WalkOne(dir, name, [".."] + rest);
    WalkOne(dir + [name], "..", rest);
    assert (dir + [name])[..|dir|] == dir;
  }

  /** A key that only goes down leads below the root; a leading slash makes no difference. */
  lemma PlainKeys(root: string, segs: seq<string>)
    requires IsClean(root) && segs != [] && AreSegments(segs)
    ensures ResolveKey(root, Join(segs, '/')) == Ok(Render(Segments(root) + segs))
    ensures ResolveKey(root, "/" + Join(segs, '/')) == Ok(Render(Segments(root) + segs))
  {
    var b, key := Segments(root), Join(segs, '/');
    JoinStart(segs);
    SplitOfJoin(segs, '/');
    WalkSegments(b, segs);
    assert TrimPrefix("/" + key, "/") == key && TrimPrefix(key, "/") == key;
    ResolveExactly(root, key);
    ResolveExactly(root, "/" + key);
  }

  /** Going up n levels at once. */
  lemma {:induction false} WalkUps(dir: seq<string>, n: nat)
    ensures Walk(dir, Ups(n)) == if n <= |dir| then dir[..|dir| - n] else []
    decreases n
  {
    if n > 0 {
      assert Ups(n)[1..] == Ups(n - 1);
      WalkUps(if dir == [] then [] else dir[..|dir| - 1], n - 1);
    }
  }

  /** The fields of a key that goes up and then down. */
  lemma UpKey(n: nat, down: seq<string>, key: string)
    requires n > 0 && AreSegments(down) && key == Join(Ups(n) + down, '/')
    ensures Split(key, '/') == Ups(n) + down && TrimPrefix(key, "/") == key
  {
    var fields := Ups(n) + down;
    forall f | f in fields
      ensures '/' !in f
    {
      var i :| 0 <= i < |fields| && fields[i] == f;
      assert i >= n ==> fields[i] == down[i - n];
    }
    SplitOfJoin(fields, '/');
    assert fields[0] == "..";
    assert key[0] == '.';
  }

  lemma WalkUpDown(dir: seq<string>, n: nat, down: seq<string>)
    requires n <= |dir| && AreSegments(down)
    ensures Walk(dir, Ups(n) + down) == dir[..|dir| - n] + down
  {
    WalkAppend(dir, Ups(n), down);
    WalkUps(dir, n);
    WalkSegments(dir[..|dir| - n], down);
  }

  /** A key that goes up n levels and then down again is refused exactly when it does not come back to the root's
      own segments on the way down. */
  lemma UpAndDown(root: string, n: nat, down: seq<string>, key: string)
    requires IsClean(root) && 0 < n <= |Segments(root)| && AreSegments(down) && key == Join(Ups(n) + down, '/')
    ensures var b := Segments(root);
            ResolveKey(root, key) == if b[|b| - n..] <= down then Ok(Render(b[..|b| - n] + down)) else Err
  {
    var b := Segments(root);
    UpKey(n, down, key);
    WalkUpDown(b, n, down);
    ResolveExactly(root, key);
    PrefixBehind(b, |b| - n, down);
  }

  lemma PrefixBehind(b: seq<string>, m: nat, down: seq<string>)
    requires m <= |b|
    ensures b <= b[..m] + down <==> b[m..] <= down
  {
    var t := b[..m] + down;
    if b <= t {
      assert t[m..] == down && b[m..] == t[..|b|][m..];
    }
    if b[m..] <= down {
      assert b == b[..m] + b[m..];
    }
  }

  /* ---------- pathUnderAny ---------- */

  function TrimRight(s: string): string {
    if s != "" && s[|s| - 1] == '/' then TrimRight(s[..|s| - 1]) else s
  }

  /** The string test of one root. */
  predicate UnderRoot(check: string, root: string) {
    var rootSep := TrimRight(root) + "/";
    check + "/" == rootSep || HasPrefix(check, rootSep) || check == TrimRight(root)
  }

  lemma RenderEnd(segs: seq<string>)
    requires AreSegments(segs)
    ensures TrimRight(Render(segs)) == if segs == [] then "" else Render(segs)
  {
    if segs == [] {
      assert "/"[..0] == "";
    } else {
      RenderLast(segs);
    }
  }

  /** A rendered path ends as its last segment does. */
  lemma RenderLast(segs: seq<string>)
    requires AreSegments(segs) && segs != []
    ensures Render(segs)[|Render(segs)| - 1] != '/'
  {
    var front, last := segs[..|segs| - 1], segs[|segs| - 1];
    assert last[|last| - 1] != '/';
    if front == [] {
      assert Render(segs) == "/" + last;
    } else {
      assert segs == front + [last];
      JoinSnoc(front, last, '/');
      assert Render(segs) == "/" + (Join(front, '/') + ['/'] + last);
    }
  }

  lemma RenderInjective(a: seq<string>, b: seq<string>)
    requires AreSegments(a) && AreSegments(b) && Render(a) == Render(b)
    ensures a == b
  {
    SegmentsOfRender(a);
    SegmentsOfRender(b);
  }

  /** A rendered path continued after a slash: its segments continue. */
  lemma RenderExtends(a: seq<string>, b: seq<string>)
    requires AreSegments(a) && AreSegments(b) && a != []
    ensures HasPrefix(Render(b), Render(a) + "/") <==> a <= b && |a| < |b|
  {
    if HasPrefix(Render(b), Render(a) + "/") {
      var rest := Render(b)[|Render(a)| + 1..];
      assert Render(b) == Render(a) + ['/'] + rest;
      ExtendsSegments(a, b, rest);
    }
    if a <= b && |a| < |b| {
      assert b == a + b[|a|..];
      JoinAppend(a, b[|a|..], '/');
    }
  }

  lemma ExtendsSegments(a: seq<string>, b: seq<string>, rest: string)
    requires AreSegments(a) && AreSegments(b) && a != []
    requires Render(b) == Render(a) + ['/'] + rest
    ensures a <= b && |a| < |b|
  {
    SplitAppend(Render(a), rest, '/');
    SplitRender(a);
    SplitRender(b);
    FieldsExtend(a, Split(rest, '/'), b, if b == [] then [""] else b);
  }

  /** The same on fields; no segment is empty. */
  lemma FieldsExtend(a: seq<string>, fields: seq<string>, b: seq<string>, tail: seq<string>)
    requires AreSegments(a) && a != [] && fields != [] && tail == (if b == [] then [""] else b)
    requires [""] + tail == ([""] + a) + fields
    ensures a <= b && |a| < |b|
  {
    var left, right := [""] + tail, ([""] + a) + fields;
    forall i | 0 <= i < |a|
      ensures tail[i] == a[i]
    {
      assert left[i + 1] == right[i + 1] == a[i];
    }
    assert IsSegment(a[0]);
  }

  /** The string test says exactly that the root's segments are the first of the path's. */
  lemma UnderRootExactly(check: string, root: string)
    requires IsClean(check) && IsClean(root)
    ensures UnderRoot(check, root) <==> Segments(root) <= Segments(check)
  {
    var c, r := Segments(check), Segments(root);
    SegmentsAreSegments(check);
    SegmentsAreSegments(root);
    RenderEnd(r);
    if r == [] {
      assert TrimRight(root) + "/" == "/";
      assert check[..1] == "/";
    } else {
      RenderExtends(r, c);
      if check + "/" == root + "/" {
        assert check == (check + "/")[..|check|] == (root + "/")[..|root|] == root;
      }
      if check == root {
        RenderInjective(c, r);
      }
      if r <= c && |r| == |c| {
        assert r == c;
      }
    }
  }

  /** pathUnderAny, on the resolved absolute path. */
  method PathUnderAny(check: string, allowed: seq<string>) returns (under: bool)
    requires IsClean(check) && forall i | 0 <= i < |allowed| :: IsClean(allowed[i])
    ensures under <==> exists i :: 0 <= i < |allowed| && Segments(allowed[i]) <= Segments(check)
  {
    for i := 0 to |allowed|
      invariant forall j | 0 <= j < i :: !(Segments(allowed[j]) <= Segments(check))
    {
      var root := allowed[i];
      UnderRootExactly(check, root);
      var rootSep := TrimRight(root) + "/";
      var checkSep := check + "/";
      if checkSep == rootSep || HasPrefix(check, rootSep) {
        return true;
      }
      if check == TrimRight(root) {
        return true;
      }
    }
    under := false;
  }
}
