/** The parts of Go's `strings` package that the program's configuration and
    wire formats rest on: `Split`, `Join`, `SplitN(.., 2)` and `TrimSpace`. */
module Text {

  datatype Option<+T> = None | Some(value: T)

  datatype Result<+T, +E> = Ok(value: T) | Err(error: E)

  // ---------------------------------------------------------------- Split and Join

  function Split<T(==)>(s: seq<T>, sep: T): (parts: seq<seq<T>>)
    ensures |parts| >= 1
  {
    if s == [] then [[]]
    else
      var rest := Split(s[1..], sep);
      if s[0] == sep then [[]] + rest
      else [[s[0]] + rest[0]] + rest[1..]
  }

  function Join<T>(parts: seq<seq<T>>, sep: T): seq<T> {
    if |parts| == 0 then []
    else if |parts| == 1 then parts[0]
    else parts[0] + [sep] + Join(parts[1..], sep)
  }

  ghost predicate AllFree<T>(parts: seq<seq<T>>, sep: T) {
    forall k :: 0 <= k < |parts| ==> sep !in parts[k]
  }

  /** Splitting loses nothing, and leaves no separator inside a part. */
  lemma {:induction false} JoinSplit<T>(s: seq<T>, sep: T)
    ensures Join(Split(s, sep), sep) == s
    ensures AllFree(Split(s, sep), sep)
  {
    if s == [] {
    } else {
      JoinSplit(s[1..], sep);
      var rest := Split(s[1..], sep);
      var parts := Split(s, sep);
      if s[0] == sep {
        assert parts[1..] == rest;
        assert Join(parts, sep) == [] + [sep] + Join(rest, sep);
      } else {
        assert parts[1..] == rest[1..];
        if |rest| > 1 {
          assert Join(parts, sep) == [s[0]] + (rest[0] + [sep] + Join(rest[1..], sep));
        }
      }
      assert s == [s[0]] + s[1..];
    }
  }

  /** A separator-free head is cut off by `Split` as the first part. */
  lemma {:induction false} SplitCut<T>(head: seq<T>, sep: T, tail: seq<T>)
    requires sep !in head
    ensures Split(head + [sep] + tail, sep) == [head] + Split(tail, sep)
  {
    var s := head + [sep] + tail;
    if head == [] {
      assert s[1..] == tail;
    } else {
      SplitCut(head[1..], sep, tail);
      assert s[1..] == head[1..] + [sep] + tail;
      assert s[0] == head[0] && head[0] in head;
      assert [head[0]] + head[1..] == head;
    }
  }

  lemma {:induction false} SplitFree<T>(s: seq<T>, sep: T)
    requires sep !in s
    ensures Split(s, sep) == [s]
  {
    if s != [] {
      SplitFree(s[1..], sep);
      assert s[0] in s;
      assert [s[0]] + s[1..] == s;
    }
  }

  /** `Split` undoes `Join` on every non-empty list of separator-free parts. */
  lemma {:induction false} SplitJoin<T>(parts: seq<seq<T>>, sep: T)
    requires |parts| >= 1 && AllFree(parts, sep)
    ensures Split(Join(parts, sep), sep) == parts
  {
    if |parts| == 1 {
      SplitFree(parts[0], sep);
    } else {
      SplitJoin(parts[1..], sep);
      SplitCut(parts[0], sep, Join(parts[1..], sep));
      assert parts == [parts[0]] + parts[1..];
    }
  }

  /** `strings.SplitN(s, sep, 2)`. */
  function SplitN2<T(==)>(s: seq<T>, sep: T): (parts: seq<seq<T>>)
    ensures 1 <= |parts| <= 2
  {
    if s == [] then [[]]
    else if s[0] == sep then [[], s[1..]]
    else
      var rest := SplitN2(s[1..], sep);
      [[s[0]] + rest[0]] + rest[1..]
  }

  /** Two parts come back exactly when the separator occurs, and then the cut
      is at its first occurrence. */
  lemma {:induction false} SplitN2Meaning<T>(s: seq<T>, sep: T)
    ensures |SplitN2(s, sep)| == 2 <==> sep in s
    ensures forall a, b :: SplitN2(s, sep) == [a, b] <==> s == a + [sep] + b && sep !in a
  {
    var parts := SplitN2(s, sep);
    if s != [] {
      SplitN2Meaning(s[1..], sep);
      var rest := SplitN2(s[1..], sep);
      assert s == [s[0]] + s[1..];
      if s[0] != sep && |parts| == 2 {
        assert rest == [rest[0], rest[1]];
      }
    }
    if |parts| == 2 {
      SplitN2Sound(s, sep);
    }
    forall a, b
      ensures parts == [a, b] <==> s == a + [sep] + b && sep !in a
    {
      if s == a + [sep] + b && sep !in a {
        SplitN2Cut(a, sep, b);
      }
      if parts == [a, b] {
        assert parts[0] == a && parts[1] == b;
      }
    }
  }

  lemma {:induction false} SplitN2Sound<T>(s: seq<T>, sep: T)
    requires |SplitN2(s, sep)| == 2
    ensures s == SplitN2(s, sep)[0] + [sep] + SplitN2(s, sep)[1]
    ensures sep !in SplitN2(s, sep)[0]
  {
    if s[0] != sep {
      SplitN2Sound(s[1..], sep);
      assert s == [s[0]] + s[1..];
    }
  }

  lemma {:induction false} SplitN2Cut<T>(a: seq<T>, sep: T, b: seq<T>)
    requires sep !in a
    ensures SplitN2(a + [sep] + b, sep) == [a, b]
  {
    var s := a + [sep] + b;
    if a == [] {
      assert s[1..] == b;
    } else {
      SplitN2Cut(a[1..], sep, b);
      assert s[1..] == a[1..] + [sep] + b;
      assert s[0] == a[0] && a[0] in a;
      assert [a[0]] + a[1..] == a;
    }
  }

  // ---------------------------------------------------------------- TrimSpace

  /** `unicode.IsSpace`. */
  predicate IsSpace(c: char) {
    || c in {'\t', '\n', '\U{0b}', '\U{0c}', '\r', ' ', '\U{85}', '\U{a0}', '\U{1680}'}
    || '\U{2000}' <= c <= '\U{200a}'
    || c in {'\U{2028}', '\U{2029}', '\U{202f}', '\U{205f}', '\U{3000}'}
  }

  /** The code points with the Unicode property White_Space. */
  lemma SpacesByCodePoint(c: char)
    ensures IsSpace(c) <==>
            var n := c as int;
            || 9 <= n <= 13 || n in {32, 133, 160, 5760} || 8192 <= n <= 8202 || n in {8232, 8233, 8239, 8287, 12288}
  {
  }

  function TrimLeft(s: string): string {
    if s != [] && IsSpace(s[0]) then TrimLeft(s[1..]) else s
  }

  function TrimRight(s: string): string {
    if s != [] && IsSpace(s[|s| - 1]) then TrimRight(s[..|s| - 1]) else s
  }

  function TrimSpace(s: string): string {
    TrimRight(TrimLeft(s))
  }

  /** What is left has no space at either end. */
  ghost predicate Trimmed(s: string) {
    s == [] || (!IsSpace(s[0]) && !IsSpace(s[|s| - 1]))
  }

  lemma {:induction false} TrimLeftHead(s: string)
    ensures TrimLeft(s) == [] || !IsSpace(TrimLeft(s)[0])
  {
    if s != [] && IsSpace(s[0]) { TrimLeftHead(s[1..]); }
  }

  lemma {:induction false} TrimRightEnds(s: string)
    ensures TrimRight(s) <= s
    ensures TrimRight(s) == [] || !IsSpace(TrimRight(s)[|TrimRight(s)| - 1])
  {
    if s != [] && IsSpace(s[|s| - 1]) { TrimRightEnds(s[..|s| - 1]); }
  }

  /** Trimming yields a trimmed string and leaves exactly those alone, so
      trimming twice is trimming once. */
  lemma TrimSpaceIdempotent(s: string)
    ensures Trimmed(TrimSpace(s))
    ensures TrimSpace(s) == s <==> Trimmed(s)
    ensures TrimSpace(TrimSpace(s)) == TrimSpace(s)
  {
    TrimLeftHead(s);
    TrimRightEnds(TrimLeft(s));
  }

  ghost predicate Spaces(s: string) { forall k :: 0 <= k < |s| ==> IsSpace(s[k]) }

  lemma {:induction false} TrimLeftPast(a: string, u: string)
    requires Spaces(a) && (u == [] || !IsSpace(u[0]))
    ensures TrimLeft(a + u) == u
  {
    if a == [] {
      assert a + u == u;
    } else {
      assert (a + u)[1..] == a[1..] + u;
      TrimLeftPast(a[1..], u);
    }
  }

  lemma {:induction false} TrimRightPast(u: string, b: string)
    requires Spaces(b) && (u == [] || !IsSpace(u[|u| - 1]))
    ensures TrimRight(u + b) == u
  {
    if b == [] {
      assert u + b == u;
    } else {
      var front := b[..|b| - 1];
      assert (u + b)[..|u + b| - 1] == u + front;
      TrimRightPast(u, front);
    }
  }

  lemma {:induction false} TrimLeftCut(s: string) returns (a: string)
    ensures Spaces(a) && s == a + TrimLeft(s)
  {
    a := [];
    if s != [] && IsSpace(s[0]) {
      var rest := TrimLeftCut(s[1..]);
      a := [s[0]] + rest;
    }
  }

  lemma {:induction false} TrimRightCut(s: string) returns (b: string)
    ensures Spaces(b) && s == TrimRight(s) + b
  {
    b := [];
    if s != [] && IsSpace(s[|s| - 1]) {
      var rest := TrimRightCut(s[..|s| - 1]);
      b := rest + [s[|s| - 1]];
    }
  }

  /** `t` is `s` without the spaces around it, and nothing else is taken away. */
  ghost predicate Inside(s: string, t: string) {
    Trimmed(t) && exists a, b :: Spaces(a) && Spaces(b) && s == a + t + b
  }

  /** Trimming takes the spaces at both ends away, all of them and nothing else:
      every string has exactly one inside, and that is what is left. */
  lemma TrimSpaceExactly(s: string, t: string)
    ensures TrimSpace(s) == t <==> Inside(s, t)
  {
    if Inside(s, t) {
      var a, b :| Spaces(a) && Spaces(b) && s == a + t + b;
      if t == [] {
        assert s == (a + b) + [];
        TrimLeftPast(a + b, []);
      } else {
        assert s == a + (t + b);
        TrimLeftPast(a, t + b);
        TrimRightPast(t, b);
      }
    }
    if TrimSpace(s) == t {
      var a := TrimLeftCut(s);
      var b := TrimRightCut(TrimLeft(s));
      TrimSpaceIdempotent(s);
      assert s == a + t + b;
    }
  }

  /** Nothing is left of spaces alone. */
  lemma BlankExactly(s: string)
    ensures TrimSpace(s) == "" <==> Spaces(s)
  {
    TrimSpaceExactly(s, "");
    if Spaces(s) {
      assert s == s + "" + "" && Spaces("");
    }
    if Inside(s, "") {
      var a, b :| Spaces(a) && Spaces(b) && s == a + "" + b;
    }
  }
}
