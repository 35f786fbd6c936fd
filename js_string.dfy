/**
  The handful of JavaScript string operations that the navigation builder
  relies on, over strings as sequences of characters: `split` and `join` with
  a one-character separator, `toUpperCase` restricted to ASCII letters, the
  first-letter capitalisation helper of the docs-nav component, and the
  relational operators `<` / `>` on strings.
 */
module JsString {

  /** `s.split(sep)` for a one-character separator `sep`. */
  function Split(s: string, sep: char): (parts: seq<string>)
    ensures |parts| >= 1
    ensures forall p :: p in parts ==> sep !in p
    decreases |s|
  {
    if |s| == 0 then [""]
    else
      var rest := Split(s[1..], sep);
      if s[0] == sep then [""] + rest
      else [[s[0]] + rest[0]] + rest[1..]
  }

  /** `parts.join(sep)`. */
  function Join(parts: seq<string>, sep: string): string
  {
    if |parts| == 0 then ""
    else if |parts| == 1 then parts[0]
    else parts[0] + sep + Join(parts[1..], sep)
  }

  /** The character `c` after replacing `from` by `to`. */
  function Subst(c: char, from: char, to: char): char
  {
    if c == from then to else c
  }

  /** Splitting at `from` and joining with `to` replaces every `from` by `to`
      and changes nothing else. */
  lemma {:induction false} SplitJoinReplaces(s: string, from: char, to: char)
    ensures var r := Join(Split(s, from), [to]);
      |r| == |s| && forall i :: 0 <= i < |s| ==> r[i] == Subst(s[i], from, to)
  {
    if |s| > 0 {
      var rest := Split(s[1..], from);
      SplitJoinReplaces(s[1..], from, to);
      JoinAfterFirst(s, from, to);
      var r := Join(Split(s, from), [to]);
      assert r == [Subst(s[0], from, to)] + Join(rest, [to]);
      forall i | 0 <= i < |s| ensures r[i] == Subst(s[i], from, to) {
        if i > 0 {
          assert r[i] == Join(rest, [to])[i - 1];
          assert s[1..][i - 1] == s[i];
        }
      }
    }
  }

  /** One step of the splitting: the first character of a non-empty string
      contributes itself, or the new separator, in front of the rest. */
  lemma JoinAfterFirst(s: string, from: char, to: char)
    requires |s| > 0
    ensures Join(Split(s, from), [to]) == [Subst(s[0], from, to)] + Join(Split(s[1..], from), [to])
  {
    var rest := Split(s[1..], from);
    var parts := Split(s, from);
    if s[0] == from {
      assert parts == [""] + rest;
      assert parts[1..] == rest;
    } else if |rest| == 1 {
      assert parts == [[s[0]] + rest[0]];
    } else {
      assert parts == [[s[0]] + rest[0]] + rest[1..];
      assert parts[1..] == rest[1..];
      assert Join(rest, [to]) == rest[0] + [to] + Join(rest[1..], [to]);
    }
  }

  /** Splitting and joining with the same separator gives the string back. */
  lemma SplitJoinRoundTrip(s: string, sep: char)
    ensures Join(Split(s, sep), [sep]) == s
  {
    SplitJoinReplaces(s, sep, sep);
  }

  /** `s.split(sep)[0]` is the text before the first `sep`, or the whole
      string when there is none. */
  lemma {:induction false} SplitFirstPiece(s: string, sep: char)
    ensures var p := Split(s, sep)[0];
      p <= s && sep !in p && (|p| < |s| ==> s[|p|] == sep)
  {
    if |s| > 0 && s[0] != sep {
      SplitFirstPiece(s[1..], sep);
    }
  }

  /** A string without the separator splits into itself alone. */
  lemma {:induction false} SplitWithoutSeparator(s: string, sep: char)
    requires sep !in s
    ensures Split(s, sep) == [s]
  {
    if |s| > 0 {
      SplitWithoutSeparator(s[1..], sep);
      assert [s[0]] + s[1..] == s;
    }
  }

  /** The text before the first separator is the first piece, and the rest
      splits on its own. */
  lemma {:induction false} SplitAfterSeparator(a: string, b: string, sep: char)
    requires sep !in a
    ensures Split(a + [sep] + b, sep) == [a] + Split(b, sep)
  {
    var s := a + [sep] + b;
    if |a| == 0 {
      assert s[1..] == b;
    } else {
      assert s[1..] == a[1..] + [sep] + b;
      SplitAfterSeparator(a[1..], b, sep);
      assert [a[0]] + a[1..] == a;
    }
  }

  /** `c.toUpperCase()` for one character, restricted to ASCII letters. */
  function ToUpperAscii(c: char): char
  {
    if 'a' <= c <= 'z' then (c as int - 32) as char else c
  }

  /** `s.toUpperCase()`, restricted to ASCII letters. */
  function ToUpperCase(s: string): string
  {
    seq(|s|, i requires 0 <= i < |s| => ToUpperAscii(s[i]))
  }

  /** Upper-casing keeps the length, turns every lower-case ASCII letter
      into its own capital and changes no other character. */
  lemma ToUpperCaseSpec(s: string)
    ensures var r := ToUpperCase(s);
      && |r| == |s|
      && (forall i :: 0 <= i < |r| ==> !('a' <= r[i] <= 'z'))
      && (forall i :: 0 <= i < |s| && 'a' <= s[i] <= 'z' ==>
            'A' <= r[i] <= 'Z' && r[i] as int - 'A' as int == s[i] as int - 'a' as int)
      && (forall i :: 0 <= i < |s| && !('a' <= s[i] <= 'z') ==> r[i] == s[i])
  {
  }

  /** `s.slice(0, 1).toUpperCase() + s.slice(1)`: upper-cases the first
      character and leaves the rest of the string as it is. */
  function Capitalize(s: string): (r: string)
    ensures |r| == |s|
    ensures |s| > 0 ==> r[0] == ToUpperAscii(s[0]) && !('a' <= r[0] <= 'z')
    ensures forall i :: 1 <= i < |s| ==> r[i] == s[i]
  {
    var head := if |s| == 0 then "" else s[..1];
    ToUpperCase(head) + s[|head|..]
  }

  /** `a < b` on strings: lexicographic comparison by character, where a
      proper prefix comes first. */
  predicate Less(a: string, b: string)
    decreases |a|
  {
    if |a| == 0 then |b| > 0
    else if |b| == 0 then false
    else if a[0] != b[0] then a[0] < b[0]
    else Less(a[1..], b[1..])
  }

  /** `a <= b` on strings. */
  predicate LessOrEqual(a: string, b: string)
  {
    a == b || Less(a, b)
  }

  lemma {:induction false} LessIrreflexive(a: string)
    ensures !Less(a, a)
  {
    if |a| > 0 {
      LessIrreflexive(a[1..]);
    }
  }

  lemma {:induction false} LessAsymmetric(a: string, b: string)
    ensures !(Less(a, b) && Less(b, a))
  {
    if |a| > 0 && |b| > 0 && a[0] == b[0] {
      LessAsymmetric(a[1..], b[1..]);
    }
  }

  lemma {:induction false} LessTransitive(a: string, b: string, c: string)
    requires Less(a, b) && Less(b, c)
    ensures Less(a, c)
  {
    if |a| > 0 && a[0] == b[0] && b[0] == c[0] {
      LessTransitive(a[1..], b[1..], c[1..]);
    }
  }

  /** Two different strings are always ordered one way or the other. */
  lemma {:induction false} LessTotal(a: string, b: string)
    requires a != b
    ensures Less(a, b) || Less(b, a)
  {
    if |a| > 0 && |b| > 0 && a[0] == b[0] {
      assert a == [a[0]] + a[1..] && b == [b[0]] + b[1..];
      LessTotal(a[1..], b[1..]);
    }
  }
}
