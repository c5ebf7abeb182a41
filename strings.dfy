/**
 * The handful of JavaScript string operations the handlers rely on: truthiness of a
 * string-or-undefined, `a || b` defaulting, ASCII `toLowerCase`, and `split` on a
 * one-character separator.
 */
module JsStrings {
  import opened Wrappers

  /** JavaScript truthiness of a string-or-undefined: `undefined` and `""` are falsy. */
  predicate Truthy(s: Option<string>)
  {
    s.Some? && s.value != ""
  }

  /** `s || fallback` for a string-or-undefined `s`. */
  function Or(s: Option<string>, fallback: string): string
  {
    if Truthy(s) then s.value else fallback
  }

  function LowerChar(c: char): char
  {
    if 'A' <= c <= 'Z' then (c as int + 32) as char else c
  }

  predicate IsLower(s: string)
  {
    forall i :: 0 <= i < |s| ==> !('A' <= s[i] <= 'Z')
  }

  /** `s.toLowerCase()`, restricted to the ASCII letters. */
  function ToLower(s: string): (r: string)
    ensures |r| == |s|
    ensures forall i :: 0 <= i < |s| ==> r[i] == LowerChar(s[i])
    ensures IsLower(r)
  {
    if s == [] then [] else [LowerChar(s[0])] + ToLower(s[1..])
  }

  /** Lower-casing a lower-case string changes nothing; hence ToLower is idempotent. */
  lemma ToLowerFixesLower(s: string)
    requires IsLower(s)
    ensures ToLower(s) == s
  {
  }

  /**
   * `s.split(sep)` for a one-character separator: the maximal pieces between
   * occurrences of `sep`, so there is always at least one piece.
   */
  function Split(s: string, sep: char): (parts: seq<string>)
    ensures |parts| >= 1
    ensures forall k :: 0 <= k < |parts| ==> sep !in parts[k]
  {
    if s == [] then [""]
    else
      var rest := Split(s[1..], sep);
      if s[0] == sep then [""] + rest
      else [[s[0]] + rest[0]] + rest[1..]
  }

  /** `parts.join(sep)`, the inverse of Split. */
  function Join(parts: seq<string>, sep: char): string
    requires |parts| >= 1
  {
    if |parts| == 1 then parts[0] else parts[0] + [sep] + Join(parts[1..], sep)
  }

  /** Splitting loses nothing: joining the pieces with the separator gives the string back. */
  lemma {:induction false} JoinSplit(s: string, sep: char)
    ensures Join(Split(s, sep), sep) == s
  {
    if s != [] {
      var rest := Split(s[1..], sep);
      JoinSplit(s[1..], sep);
      if s[0] == sep {
        assert Split(s, sep) == [""] + rest;
        assert ([""] + rest)[1..] == rest;
      } else {
        var parts := [[s[0]] + rest[0]] + rest[1..];
        assert Split(s, sep) == parts;
        if |rest| == 1 {
          assert parts == [[s[0]] + rest[0]];
        } else {
          assert parts[1..] == rest[1..];
          assert Join(rest, sep) == rest[0] + [sep] + Join(rest[1..], sep);
        }
      }
    }
  }

  /** A string without the separator is a single piece. */
  lemma {:induction false} SplitWithoutSep(s: string, sep: char)
    requires sep !in s
    ensures Split(s, sep) == [s]
  {
    if s != [] {
      SplitWithoutSep(s[1..], sep);
      assert [s[0]] + s[1..] == s;
    }
  }

  /** The piece before the first separator comes first, and the rest is split on its own. */
  lemma {:induction false} SplitAtFirst(a: string, sep: char, b: string)
    requires sep !in a
    ensures Split(a + [sep] + b, sep) == [a] + Split(b, sep)
  {
    if a == [] {
      assert a + [sep] + b == [sep] + b;
      assert ([sep] + b)[1..] == b;
    } else {
      var s := a + [sep] + b;
      assert s[1..] == a[1..] + [sep] + b;
      SplitAtFirst(a[1..], sep, b);
      assert [a[0]] + a[1..] == a;
    }
  }

  /** `s.split(sep)[k]`: the k-th piece, or `undefined` when there are not that many. */
  function FieldAt(s: string, sep: char, k: nat): (r: Option<string>)
    ensures r.Some? <==> k < |Split(s, sep)|
    ensures r.Some? ==> sep !in r.value
  {
    var parts := Split(s, sep);
    if k < |parts| then Some(parts[k]) else None
  }

  /** The first piece is always there and is a prefix of the input. */
  lemma {:induction false} FirstField(s: string, sep: char)
    ensures FieldAt(s, sep, 0).Some?
    ensures FieldAt(s, sep, 0).value <= s
  {
    if s != [] {
      FirstField(s[1..], sep);
    }
  }
}
