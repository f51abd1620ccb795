/** The pieces of Go's `strings` package the models rely on, for one-character separators. */
module Text {

  predicate HasPrefix(s: string, prefix: string) {
    |prefix| <= |s| && s[..|prefix|] == prefix
  }

  predicate HasSuffix(s: string, suffix: string) {
    |suffix| <= |s| && s[|s| - |suffix|..] == suffix
  }

  function TrimPrefix(s: string, prefix: string): string {
    if HasPrefix(s, prefix) then s[|prefix|..] else s
  }

  /** strings.Split(s, c): always at least one field. */
  function Split(s: string, c: char): (fields: seq<string>)
    ensures |fields| >= 1
    ensures forall f | f in fields :: c !in f
  {
    if s == "" then [""]
    else
      var rest := Split(s[1..], c);
      if s[0] == c then [""] + rest else [[s[0]] + rest[0]] + rest[1..]
  }

  /** strings.Join(fields, c). */
  function Join(fields: seq<string>, c: char): string {
    if |fields| == 0 then ""
    else if |fields| == 1 then fields[0]
    else fields[0] + [c] + Join(fields[1..], c)
  }

  lemma {:induction false} SplitNone(s: string, c: char)
    requires c !in s
    ensures Split(s, c) == [s]
  {
    if s != "" {
      SplitNone(s[1..], c);
      assert [s[0]] + s[1..] == s;
    }
  }

  /** Splitting stops at the first separator. */
  lemma {:induction false} SplitFirst(a: string, s: string, c: char)
    requires c !in a
    ensures Split(a + [c] + s, c) == [a] + Split(s, c)
  {
    var whole := a + [c] + s;
    if a == "" {
      assert whole[1..] == s;
    } else {
      assert whole[1..] == a[1..] + [c] + s;
      SplitFirst(a[1..], s, c);
      assert [a[0]] + a[1..] == a;
      assert whole[0] == a[0] != c;
    }
  }

  /** Split undoes Join when no field holds the separator. */
  lemma {:induction false} SplitOfJoin(fields: seq<string>, c: char)
    requires |fields| >= 1
    requires forall f | f in fields :: c !in f
    ensures Split(Join(fields, c), c) == fields
  {
    if |fields| == 1 {
      SplitNone(fields[0], c);
    } else {
      SplitFirst(fields[0], Join(fields[1..], c), c);
      SplitOfJoin(fields[1..], c);
    }
  }

  /** Join undoes Split. */
  lemma {:induction false} JoinOfSplit(s: string, c: char)
    ensures Join(Split(s, c), c) == s
  {
    if s != "" {
      JoinOfSplit(s[1..], c);
      var rest := Split(s[1..], c);
      if s[0] == c {
        assert ([""] + rest)[1..] == rest;
      } else {
        assert ([[s[0]] + rest[0]] + rest[1..])[1..] == rest[1..];
      }
    }
  }

  lemma {:induction false} JoinSnoc(fields: seq<string>, f: string, c: char)
    requires |fields| >= 1
    ensures Join(fields + [f], c) == Join(fields, c) + [c] + f
  {
    if |fields| > 1 {
      assert (fields + [f])[1..] == fields[1..] + [f];
      JoinSnoc(fields[1..], f, c);
    }
  }

  lemma {:induction false} JoinAppend(a: seq<string>, b: seq<string>, c: char)
    requires a != [] && b != []
    ensures Join(a + b, c) == Join(a, c) + [c] + Join(b, c)
  {
    if |a| == 1 {
      assert (a + b)[1..] == b;
    } else {
      assert (a + b)[1..] == a[1..] + b;
      JoinAppend(a[1..], b, c);
    }
  }

  /** Splitting around any separator splits both sides. */
  lemma SplitAppend(a: string, b: string, c: char)
    ensures Split(a + [c] + b, c) == Split(a, c) + Split(b, c)
  {
    JoinOfSplit(a, c);
    JoinOfSplit(b, c);
    JoinAppend(Split(a, c), Split(b, c), c);
    SplitOfJoin(Split(a, c) + Split(b, c), c);
  }
}
