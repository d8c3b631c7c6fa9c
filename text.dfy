/**
 * String helpers. `RemoveFirst`, `ToLower`, `EndsWith` and `Contains` are the
 * string methods the action calls (`replace` with a one-character pattern,
 * `toLowerCase`, `endsWith`, `includes`). `IndexOf`, `Join` and `Split` are
 * this model's own tools: they locate the first occurrence that
 * `replace` removes, and they cut a version string at its separators to
 * decide the version regular expression.
 */
module Text {

  /** The position of the first `c` in `s`, or `|s|` when there is none. */
  function IndexOf(s: string, c: char): (i: nat)
    ensures i <= |s|
    ensures i < |s| ==> s[i] == c
    ensures forall j :: 0 <= j < i ==> s[j] != c
  {
    if s == [] then 0
    else if s[0] == c then 0
    else 1 + IndexOf(s[1..], c)
  }

  /** The first occurrence of `c` sits right after a prefix free of `c`. */
  lemma IndexOfAfterPrefix(a: string, c: char, b: string)
    requires c !in a
    ensures IndexOf(a + [c] + b, c) == |a|
  {
    var s := a + [c] + b;
    assert s[|a|] == c;
    assert forall j :: 0 <= j < |a| ==> s[j] == a[j];
  }

  /** The pieces glued together with `sep` between neighbours. */
  function Join(parts: seq<string>, sep: char): string
  {
    if |parts| == 0 then ""
    else if |parts| == 1 then parts[0]
    else parts[0] + [sep] + Join(parts[1..], sep)
  }

  /** The pieces of `s` between occurrences of `sep`, which `Join` glues back. */
  function Split(s: string, sep: char): (parts: seq<string>)
    ensures |parts| > 0
    ensures forall k :: 0 <= k < |parts| ==> sep !in parts[k]
    ensures Join(parts, sep) == s
    decreases |s|
  {
    var i := IndexOf(s, sep);
    if i == |s| then [s]
    else
      var rest := Split(s[i + 1..], sep);
      var parts := [s[..i]] + rest;
      assert parts[1..] == rest;
      assert s == s[..i] + [sep] + s[i + 1..];
      parts
  }

  /** Splitting a join of separator-free pieces gives the pieces back. */
  lemma {:induction false} SplitJoin(parts: seq<string>, sep: char)
    requires |parts| > 0
    requires forall k :: 0 <= k < |parts| ==> sep !in parts[k]
    ensures Split(Join(parts, sep), sep) == parts
  {
    if |parts| == 1 {
      assert Join(parts, sep) == parts[0];
    } else {
      var tail := Join(parts[1..], sep);
      var s := Join(parts, sep);
      assert s == parts[0] + [sep] + tail;
      IndexOfAfterPrefix(parts[0], sep, tail);
      assert s[..|parts[0]|] == parts[0];
      assert s[|parts[0]| + 1..] == tail;
      SplitJoin(parts[1..], sep);
      assert parts == [parts[0]] + parts[1..];
    }
  }

  /** A character other than the separator occurs in a join only if it occurs in a piece. */
  lemma {:induction false} NotInJoin(parts: seq<string>, sep: char, c: char)
    requires c != sep
    requires forall k :: 0 <= k < |parts| ==> c !in parts[k]
    ensures c !in Join(parts, sep)
  {
    if |parts| > 1 {
      NotInJoin(parts[1..], sep, c);
    }
  }

  /** `s.replace(c, '')` with a one-character string pattern: drops the FIRST `c` only. */
  function RemoveFirst(s: string, c: char): string
  {
    var i := IndexOf(s, c);
    if i == |s| then s else s[..i] + s[i + 1..]
  }

  /** Number of occurrences of `c` in `s`. */
  function Count(s: string, c: char): nat
  {
    if s == [] then 0 else (if s[0] == c then 1 else 0) + Count(s[1..], c)
  }

  /** `s` with every `c` taken out (what a global replace would give). */
  function RemoveAll(s: string, c: char): string
  {
    if s == [] then "" else (if s[0] == c then "" else [s[0]]) + RemoveAll(s[1..], c)
  }

  lemma {:induction false} CountAppend(a: string, b: string, c: char)
    ensures Count(a + b, c) == Count(a, c) + Count(b, c)
    ensures RemoveAll(a + b, c) == RemoveAll(a, c) + RemoveAll(b, c)
  {
    if a == [] {
      assert a + b == b;
    } else {
      assert (a + b)[1..] == a[1..] + b;
      CountAppend(a[1..], b, c);
    }
  }

  lemma {:induction false} CountAbsent(s: string, c: char)
    requires c !in s
    ensures Count(s, c) == 0 && RemoveAll(s, c) == s
  {
    if s != [] {
      CountAbsent(s[1..], c);
    }
  }

  /**
   * Removing the first `c` leaves a string without `c` unchanged; otherwise
   * it cuts out exactly the occurrence that no other `c` precedes, so one `c`
   * goes, later ones stay and every other character keeps its order.
   */
  lemma RemoveFirstRemovesOne(s: string, c: char)
    ensures c !in s ==> RemoveFirst(s, c) == s
    ensures c in s ==>
      exists i :: 0 <= i < |s| && s[i] == c && c !in s[..i] && RemoveFirst(s, c) == s[..i] + s[i + 1..]
    ensures Count(RemoveFirst(s, c), c) == if c in s then Count(s, c) - 1 else 0
    ensures RemoveAll(RemoveFirst(s, c), c) == RemoveAll(s, c)
    ensures |RemoveFirst(s, c)| == if c in s then |s| - 1 else |s|
  {
    var i := IndexOf(s, c);
    if i == |s| {
      CountAbsent(s, c);
    } else {
      var a, b := s[..i], s[i + 1..];
      assert c !in a && s[i] == c;
      assert s == a + ([c] + b);
      assert RemoveFirst(s, c) == a + b;
      assert s[i] == c && c !in s[..i] && RemoveFirst(s, c) == s[..i] + s[i + 1..];
      CountAround(a, c, b);
    }
  }

  /** One more `c` between two strings counts once and is removed. */
  lemma CountAround(a: string, c: char, b: string)
    ensures Count(a + ([c] + b), c) == Count(a + b, c) + 1
    ensures RemoveAll(a + ([c] + b), c) == RemoveAll(a + b, c)
  {
    var cb := [c] + b;
    CountAppend([c], b, c);
    CountOne(c);
    assert Count(cb, c) == 1 + Count(b, c);
    assert RemoveAll(cb, c) == RemoveAll(b, c) by {
      assert "" + RemoveAll(b, c) == RemoveAll(b, c);
    }
    CountAppend(a, cb, c);
    CountAppend(a, b, c);
  }

  lemma CountOne(c: char)
    ensures Count([c], c) == 1 && RemoveAll([c], c) == ""
  {
    assert [c][1..] == [];
  }

  /** ASCII `toLowerCase` of one character. */
  function LowerChar(c: char): char
  {
    if 'A' <= c <= 'Z' then (c as int + 32) as char else c
  }

  /** `s.toLowerCase()` on the ASCII range. */
  function ToLower(s: string): string
  {
    seq(|s|, k requires 0 <= k < |s| => LowerChar(s[k]))
  }

  lemma ToLowerAppend(a: string, b: string)
    ensures ToLower(a + b) == ToLower(a) + ToLower(b)
  {
  }

  /** `s.endsWith(suffix)`. */
  predicate EndsWith(s: string, suffix: string)
  {
    |suffix| <= |s| && s[|s| - |suffix|..] == suffix
  }

  /** `s.includes(t)`. */
  predicate Contains(s: string, t: string)
    decreases |s|
  {
    |t| <= |s| && (s[..|t|] == t || (|s| > 0 && Contains(s[1..], t)))
  }
}
