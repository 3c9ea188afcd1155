/** What the text operations do to the characters of a string. */
module TextLaws {
  import opened Text
  import opened Pointers

  // ---- trimming and case -------------------------------------------------------------------------

  predicate Blank(s: string) {
    forall i | 0 <= i < |s| :: s[i] in {' ', '\t', '\n', '\r', 11 as char, 12 as char}
  }

  /** Neither end is a space. */
  predicate Tight(s: string) {
    s != "" ==> !IsSpace(s[0]) && !IsSpace(s[|s| - 1])
  }

  lemma {:induction false} TrimLeftCuts(s: string) returns (cut: string)
    ensures s == cut + TrimLeft(s) && Blank(cut)
    ensures TrimLeft(s) != "" ==> !IsSpace(TrimLeft(s)[0])
  {
    if s != "" && IsSpace(s[0]) {
      var rest := TrimLeftCuts(s[1..]);
      cut := [s[0]] + rest;
      assert s == [s[0]] + s[1..];
    } else {
      cut := "";
    }
  }

  lemma {:induction false} TrimRightCuts(s: string) returns (cut: string)
    ensures s == TrimRight(s) + cut && Blank(cut)
    ensures TrimRight(s) != "" ==> !IsSpace(TrimRight(s)[|TrimRight(s)| - 1]) && TrimRight(s)[0] == s[0]
  {
    if s != "" && IsSpace(s[|s| - 1]) {
      var rest := TrimRightCuts(s[..|s| - 1]);
      cut := rest + [s[|s| - 1]];
      assert s == s[..|s| - 1] + [s[|s| - 1]];
    } else {
      cut := "";
    }
  }

  /** Trimming takes away spaces at both ends, and all of them. */
  lemma {:induction false} TrimCuts(s: string) returns (left: string, right: string)
    ensures s == left + Trim(s) + right && Blank(left) && Blank(right) && Tight(Trim(s))
  {
    left := TrimLeftCuts(s);
    right := TrimRightCuts(TrimLeft(s));
  }

  lemma {:induction false} DropBlank(left: string, s: string)
    requires Blank(left)
    ensures TrimLeft(left + s) == TrimLeft(s)
  {
    if left == "" {
      assert left + s == s;
    } else {
      DropBlank(left[1..], s);
      assert (left + s)[1..] == left[1..] + s;
    }
  }

  lemma {:induction false} DropBlankEnd(s: string, right: string)
    requires Blank(right)
    ensures TrimRight(s + right) == TrimRight(s)
  {
    if right == "" {
      assert s + right == s;
    } else {
      DropBlankEnd(s, right[..|right| - 1]);
      assert (s + right)[..|s + right| - 1] == s + right[..|right| - 1];
    }
  }

  /** Only one tight text is left of it. */
  lemma {:induction false} TrimIs(left: string, core: string, right: string)
    requires Blank(left) && Blank(right) && Tight(core)
    ensures Trim(left + core + right) == core
  {
    assert left + core + right == left + (core + right);
    DropBlank(left, core + right);
    DropBlankEnd(core, right);
    if core == "" {
      DropBlank(right, "");
      assert right + "" == right == core + right;
      assert TrimRight(TrimLeft("")) == "";
    } else {
      assert (core + right)[0] == core[0];
    }
  }

  /** A text is nothing but spaces exactly when trimming leaves nothing. */
  lemma {:induction false} TrimsToNothing(s: string)
    ensures Trim(s) == "" <==> Blank(s)
  {
    if Blank(s) {
      TrimIs(s, "", "");
      assert s + "" + "" == s;
    } else {
      var left, right := TrimCuts(s);
      assert Trim(s) == "" ==> s == left + right;
    }
  }

  /** Lower case: every letter from A to Z becomes the small letter at its place, and nothing else changes. */
  lemma {:induction false} LowerAt(s: string)
    ensures |Lower(s)| == |s|
    ensures forall i | 0 <= i < |s| :: Lower(s)[i] == if 'A' <= s[i] <= 'Z' then (s[i] as int - 'A' as int + 'a' as int) as char else s[i]
  {
    if s != "" {
      LowerAt(s[1..]);
    }
  }

  /** The word in any mixture of case, between spaces. */
  ghost predicate SaysUnknown(s: string) {
    exists left: string, word: string, right: string :: s == left + word + right && Blank(left) && Blank(right) && IsUnknown(word)
  }

  predicate IsUnknown(word: string) {
    |word| == 7 && forall i | 0 <= i < 7 :: word[i] == "unknown"[i] || word[i] == "UNKNOWN"[i]
  }

  lemma {:induction false} LowerUnknown(w: string)
    ensures Lower(w) == "unknown" <==> IsUnknown(w)
  {
    LowerAt(w);
    var u := "unknown";
    if IsUnknown(w) {
      forall i | 0 <= i < 7 ensures Lower(w)[i] == u[i] {
        assert w[i] == "unknown"[i] || w[i] == "UNKNOWN"[i];
      }
      assert Lower(w) == u;
    }
    if Lower(w) == u {
      forall i | 0 <= i < 7 ensures w[i] == "unknown"[i] || w[i] == "UNKNOWN"[i] {
        assert Lower(w)[i] == u[i];
      }
    }
  }

  lemma {:induction false} TrimsToUnknown(s: string)
    ensures Lower(Trim(s)) == "unknown" <==> SaysUnknown(s)
  {
    if Lower(Trim(s)) == "unknown" {
      LowerUnknown(Trim(s));
      var left, right := TrimCuts(s);
    }
    if left, word, right :| s == left + word + right && Blank(left) && Blank(right) && IsUnknown(word) {
      assert word[0] == "unknown"[0] || word[0] == "UNKNOWN"[0];
      assert word[6] == "unknown"[6] || word[6] == "UNKNOWN"[6];
      TrimIs(left, word, right);
      LowerUnknown(word);
    }
  }

  // ---- order and numbers -------------------------------------------------------------------------

  /** One string comes before another at the first character where they differ, or where it ends. */
  lemma {:induction false} BeforeAtFirst(a: string, b: string)
    ensures Before(a, b) <==> exists n: nat :: DiffersAt(a, b, n)
  {
    if b != "" && a != "" && a[0] == b[0] {
      BeforeAtFirst(a[1..], b[1..]);
      if n: nat :| DiffersAt(a[1..], b[1..], n) {
        SameStart(a, b, n);
      }
      if n: nat :| DiffersAt(a, b, n) {
        assert n > 0;
        SameStart(a, b, n - 1);
      }
    } else if Before(a, b) {
      assert DiffersAt(a, b, 0);
    }
  }

  lemma SameStart(a: string, b: string, n: nat)
    requires a != "" && b != "" && a[0] == b[0]
    ensures DiffersAt(a, b, n + 1) <==> DiffersAt(a[1..], b[1..], n)
  {
    if DiffersAt(a, b, n + 1) {
      forall i | 0 <= i < n ensures a[1..][i] == b[1..][i] {
        assert a[1..][i] == a[i + 1] && b[1..][i] == b[i + 1];
      }
    }
    if DiffersAt(a[1..], b[1..], n) {
      forall i | 0 <= i < n + 1 ensures a[i] == b[i] {
        assert i > 0 ==> a[i] == a[1..][i - 1] && b[i] == b[1..][i - 1];
      }
    }
  }

  predicate DiffersAt(a: string, b: string, n: nat) {
    n <= |a| && n < |b| && (forall i | 0 <= i < n :: a[i] == b[i]) && (n == |a| || a[n] < b[n])
  }

  /** The number a string of digits spells. */
  function Spelled(s: string): int {
    if s == "" then 0 else 10 * Spelled(s[..|s| - 1]) + (s[|s| - 1] as int - '0' as int)
  }

  /** Decimals spell the number, without leading zeros. */
  lemma {:induction false} DigitsSpell(n: nat)
    ensures Spelled(Digits(n)) == n && (n > 0 ==> Digits(n)[0] != '0') && (n == 0 ==> Digits(n) == "0")
  {
    if n < 10 {
      assert Digits(n)[..0] == "";
    } else {
      DigitsSpell(n / 10);
      assert Digits(n)[..|Digits(n)| - 1] == Digits(n / 10);
    }
  }

  lemma {:induction false} ItoaSpells(i: int)
    ensures i >= 0 ==> Spelled(Itoa(i)) == i && forall c | c in Itoa(i) :: '0' <= c <= '9'
    ensures i < 0 ==> Itoa(i)[0] == '-' && Spelled(Itoa(i)[1..]) == -i
    ensures i > 0 ==> Itoa(i)[0] != '0'
    ensures Itoa(0) == "0"
  {
    if i >= 0 {
      DigitsSpell(i);
    } else {
      DigitsSpell(-i);
      assert Itoa(i)[1..] == Digits(-i);
    }
    DigitsSpell(0);
  }

  // ---- pointers ----------------------------------------------------------------------------------

  /** A pointer is a slash and the token, for each token; inside a token a tilde is written ~0 and a slash ~1. */
  lemma {:induction false} PointerSpells(token: string, rest: Pointer, c: char)
    ensures JoinPointer([]) == ""
    ensures JoinPointer([token] + rest) == "/" + Escape(token) + JoinPointer(rest)
    ensures Escape("") == ""
    ensures Escape([c] + token) == (if c == '~' then "~0" else if c == '/' then "~1" else [c]) + Escape(token)
  {
    assert ([token] + rest)[1..] == rest;
    EscapeUnfold([c] + token);
    assert ([c] + token)[1..] == token;
    EscapeUnfold("");
  }
}
