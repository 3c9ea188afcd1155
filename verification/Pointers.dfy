/** JSON pointers (RFC 6901, sections 3 and 4) as the provenance sidecar and the patches spell them,
    and their reading as token sequences. */
module Pointers {
  import opened Options
  import opened Text

  /** A canonical pointer is the non-empty sequence of its unescaped reference tokens. */
  type Pointer = seq<string>

  /** strings.ReplaceAll with a one-character pattern. */
  function ReplaceChar(s: string, c: char, put: string): string {
    if s == "" then "" else (if s[0] == c then put else [s[0]]) + ReplaceChar(s[1..], c, put)
  }

  /** strings.ReplaceAll with a two-character pattern: matches do not overlap. */
  function ReplacePair(s: string, a: char, b: char, put: char): string {
    if |s| < 2 then s
    else if s[0] == a && s[1] == b then [put] + ReplacePair(s[2..], a, b, put)
    else [s[0]] + ReplacePair(s[1..], a, b, put)
  }

  function Escape(token: string): string {
    ReplaceChar(ReplaceChar(token, '~', "~0"), '/', "~1")
  }

  function Unescape(token: string): string {
    ReplacePair(ReplacePair(token, '~', '1', '/'), '~', '0', '~')
  }

  function EscapedChar(c: char): string {
    if c == '~' then "~0" else if c == '/' then "~1" else [c]
  }

  lemma {:induction false} EscapeUnfold(t: string)
    ensures t == "" ==> Escape(t) == ""
    ensures t != "" ==> Escape(t) == EscapedChar(t[0]) + Escape(t[1..])
    ensures '/' !in Escape(t)
  {
    if t != "" {
      EscapeUnfold(t[1..]);
      var inner := ReplaceChar(t[1..], '~', "~0");
      if t[0] == '~' {
        var s := "~0" + inner;
        assert s[1..] == "0" + inner && (s[1..])[1..] == inner;
        assert ReplaceChar(s[1..], '/', "~1") == "0" + ReplaceChar(inner, '/', "~1");
      } else {
        assert ([t[0]] + inner)[1..] == inner;
      }
    }
  }

  lemma {:induction false} UnescapeSlash(t: string)
    ensures ReplacePair(Escape(t), '~', '1', '/') == ReplaceChar(t, '~', "~0")
  {
    EscapeUnfold(t);
    if t != "" {
      UnescapeSlash(t[1..]);
      var s := Escape(t);
      var rest := Escape(t[1..]);
      if t[0] == '~' {
        assert s[1..] == "0" + rest && (s[1..])[1..] == rest;
        assert ReplacePair(s[1..], '~', '1', '/') == "0" + ReplacePair(rest, '~', '1', '/');
      } else if t[0] == '/' {
        assert s[2..] == rest;
      } else {
        assert s[1..] == rest;
      }
    }
  }

  lemma {:induction false} UnescapeTilde(t: string)
    ensures ReplacePair(ReplaceChar(t, '~', "~0"), '~', '0', '~') == t
  {
    if t != "" {
      UnescapeTilde(t[1..]);
      var s := ReplaceChar(t, '~', "~0");
      var rest := ReplaceChar(t[1..], '~', "~0");
      if t[0] == '~' {
        assert s[2..] == rest;
      } else {
        assert s[1..] == rest;
      }
      assert t == [t[0]] + t[1..];
    }
  }

  /** Escaping a token and reading it back gives the token, for every token. */
  lemma EscapeRoundTrip(t: string)
    ensures Unescape(Escape(t)) == t
    ensures '/' !in Escape(t)
  {
    EscapeUnfold(t);
    UnescapeSlash(t);
    UnescapeTilde(t);
  }

  function EscapeAll(p: Pointer): (r: seq<string>)
    ensures |r| == |p|
    ensures forall i | 0 <= i < |p| :: r[i] == Escape(p[i])
  {
    seq(|p|, i requires 0 <= i < |p| => Escape(p[i]))
  }

  /** joinPointer: a slash and the escaped token, for each token. */
  function JoinPointer(p: Pointer): string {
    if p == [] then "" else "/" + Escape(p[0]) + JoinPointer(p[1..])
  }

  /** splitPointer: the unescaped tokens of a pointer, none when it does not start with a slash. */
  function SplitPointer(s: string): Option<Pointer> {
    if s == "" || s[0] != '/' then None
    else
      var parts := Split(s[1..], '/');
      Some(seq(|parts|, i requires 0 <= i < |parts| => Unescape(parts[i])))
  }

  /** under: the pointer is `q`, or starts with `q` and a slash. */
  predicate Under(p: string, q: string) {
    p == q || q + "/" <= p
  }

  lemma SlashFirst(token: string, rest: string)
    ensures "/" + token + ("/" + rest) == "/" + (token + ['/'] + rest)
  {}

  lemma {:induction false} JoinPointerIsJoin(p: Pointer)
    requires p != []
    ensures JoinPointer(p) == "/" + Join(EscapeAll(p), '/')
  {
    if |p| > 1 {
      JoinPointerIsJoin(p[1..]);
      assert EscapeAll(p)[1..] == EscapeAll(p[1..]);
      SlashFirst(Escape(p[0]), Join(EscapeAll(p[1..]), '/'));
    } else {
      assert JoinPointer(p[1..]) == "";
    }
  }

  lemma EscapedFree(p: Pointer)
    ensures FreeOf(EscapeAll(p), '/')
  {
    forall i | 0 <= i < |p| ensures '/' !in EscapeAll(p)[i] {
      EscapeRoundTrip(p[i]);
    }
  }

  lemma EscapeAllInjective(p: Pointer, q: Pointer)
    requires EscapeAll(p) == EscapeAll(q)
    ensures p == q
  {
    forall i | 0 <= i < |p| ensures p[i] == q[i] {
      assert EscapeAll(p)[i] == EscapeAll(q)[i];
      EscapeRoundTrip(p[i]);
      EscapeRoundTrip(q[i]);
    }
  }

  /** Rendering a token sequence and splitting it gives the tokens back: canonical pointers and
      token sequences correspond one to one. */
  lemma PointerRoundTrip(p: Pointer)
    requires p != []
    ensures SplitPointer(JoinPointer(p)) == Some(p)
  {
    JoinPointerIsJoin(p);
    EscapedFree(p);
    SplitJoin(EscapeAll(p), '/');
    assert JoinPointer(p)[1..] == Join(EscapeAll(p), '/');
    forall i | 0 <= i < |p| ensures Unescape(EscapeAll(p)[i]) == p[i] {
      EscapeRoundTrip(p[i]);
    }
    assert SplitPointer(JoinPointer(p)).value == p;
  }

  lemma PrefixCut(x: string, y: string)
    requires y + "/" <= x
    ensures x == y + "/" + x[|y| + 1..]
  {}

  lemma CutPrefix(x: string, y: string, rest: string)
    requires x == y + "/" + rest
    ensures y + "/" <= x
  {}

  lemma SlashAppend(x: string, y: string, a: string, b: string, c: string)
    requires x == "/" + a && y == "/" + b && a == b + "/" + c
    ensures x == y + "/" + c
  {
    assert "/" + (b + "/" + c) == ("/" + b) + "/" + c;
  }

  /** The textual relation between two canonical pointers is the prefix relation of their tokens. */
  lemma UnderIsTokenPrefix(p: Pointer, q: Pointer)
    requires p != [] && q != []
    ensures Under(JoinPointer(p), JoinPointer(q)) <==> q <= p
  {
    var x, y := JoinPointer(p), JoinPointer(q);
    if q <= p {
      PrefixGivesUnder(p, q);
    }
    if x == y {
      PointerRoundTrip(p);
      PointerRoundTrip(q);
    } else if y + "/" <= x {
      PrefixCut(x, y);
      UnderGivesPrefix(p, q, x[|y| + 1..]);
    }
  }

  lemma PrefixGivesUnder(p: Pointer, q: Pointer)
    requires q != [] && q <= p
    ensures Under(JoinPointer(p), JoinPointer(q))
  {
    if q != p {
      var a, b, c := EscapeAll(p), EscapeAll(q), EscapeAll(p)[|q|..];
      JoinPointerIsJoin(p);
      JoinPointerIsJoin(q);
      assert a == b + c;
      JoinAppend(b, c, '/');
      SlashAppend(JoinPointer(p), JoinPointer(q), Join(a, '/'), Join(b, '/'), Join(c, '/'));
      CutPrefix(JoinPointer(p), JoinPointer(q), Join(c, '/'));
    }
  }

  lemma UnderGivesPrefix(p: Pointer, q: Pointer, rest: string)
    requires p != [] && q != []
    requires JoinPointer(p) == JoinPointer(q) + "/" + rest
    ensures q <= p
  {
    JoinPointerIsJoin(p);
    JoinPointerIsJoin(q);
    assert Join(EscapeAll(p), '/') == JoinPointer(p)[1..] == Join(EscapeAll(q), '/') + "/" + rest;
    var a, b, c := EscapeAll(p), EscapeAll(q), Split(rest, '/');
    JoinSplit(rest, '/');
    JoinAppend(b, c, '/');
    EscapedFree(p);
    EscapedFree(q);
    assert FreeOf(b + c, '/');
    SplitJoin(a, '/');
    SplitJoin(b + c, '/');
    assert a == b + c;
    assert EscapeAll(p[..|q|]) == a[..|q|] == b;
    EscapeAllInjective(p[..|q|], q);
  }

  /** The number of slashes of a pointer. */
  function Slashes(s: string): nat {
    if s == "" then 0 else (if s[0] == '/' then 1 else 0) + Slashes(s[1..])
  }

  lemma {:induction false} SlashesAppend(s: string, t: string)
    ensures Slashes(s + t) == Slashes(s) + Slashes(t)
  {
    if s == "" {
      assert s + t == t;
    } else {
      SlashesAppend(s[1..], t);
      assert (s + t)[1..] == s[1..] + t;
    }
  }

  lemma {:induction false} SlashFree(s: string)
    requires '/' !in s
    ensures Slashes(s) == 0
  {
    if s != "" {
      SlashFree(s[1..]);
    }
  }

  /** pointerDepth counts slashes without unescaping; it is the number of tokens. */
  lemma {:induction false} DepthIsTokenCount(p: Pointer)
    ensures Slashes(JoinPointer(p)) == |p|
  {
    if p != [] {
      DepthIsTokenCount(p[1..]);
      EscapeRoundTrip(p[0]);
      SlashFree(Escape(p[0]));
      SlashesAppend("/" + Escape(p[0]), JoinPointer(p[1..]));
      SlashesAppend("/", Escape(p[0]));
      assert ("/")[1..] == "";
    }
  }
}
