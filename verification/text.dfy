/** Character-level helpers over JavaScript strings, modelled as `seq<char>`. */
module Text {
  import opened Wrappers

  /** `String.prototype.toUpperCase` on one character, for the ASCII letters. */
  function UpperChar(c: char): char {
    if 'a' <= c <= 'z' then (c as int - 32) as char else c
  }

  function Upper(s: string): (r: string)
    ensures |r| == |s|
    ensures forall i :: 0 <= i < |s| ==> r[i] == UpperChar(s[i])
  {
    seq(|s|, i requires 0 <= i < |s| => UpperChar(s[i]))
  }

  /** Text without parentheses can sit inside a CSS function call unambiguously. */
  predicate Plain(s: string) {
    '(' !in s && ')' !in s
  }

  lemma UpperKeepsPlain(s: string)
    requires Plain(s)
    ensures Plain(Upper(s))
  {
    forall i | 0 <= i < |s|
      ensures Upper(s)[i] != '(' && Upper(s)[i] != ')'
    {
      assert s[i] in s;
    }
  }

  /** Position of the first occurrence of `c` in `s`, like `String.prototype.indexOf`. */
  function IndexOf(s: string, c: char): (r: Option<nat>)
    ensures r.None? <==> c !in s
    ensures r.Some? ==> r.value < |s| && s[r.value] == c && c !in s[..r.value]
  {
    if s == [] then None
    else if s[0] == c then Some(0)
    else match IndexOf(s[1..], c)
      case None => None
      case Some(k) =>
        assert s[..k + 1] == [s[0]] + s[1..][..k];
        Some(k + 1)
  }

  lemma {:induction false} IndexOfFirst(a: string, c: char, b: string)
    requires c !in a
    ensures IndexOf(a + [c] + b, c) == Some(|a|)
  {
    if a != [] {
      assert (a + [c] + b)[1..] == a[1..] + [c] + b;
      assert c !in a[1..] by {
        forall i | 0 <= i < |a[1..]| ensures a[1..][i] != c {
          assert a[1..][i] == a[i + 1];
        }
      }
      IndexOfFirst(a[1..], c, b);
    }
  }

  /** `s` begins with `p`, like `String.prototype.startsWith`. */
  predicate StartsWith(s: string, p: string)
    decreases |p|
  {
    p == [] || (s != [] && s[0] == p[0] && StartsWith(s[1..], p[1..]))
  }

  lemma {:induction false} StartsWithSplit(s: string, p: string)
    requires StartsWith(s, p)
    ensures |p| <= |s| && s == p + s[|p|..]
    decreases |p|
  {
    if p != [] {
      StartsWithSplit(s[1..], p[1..]);
      assert s == [s[0]] + s[1..];
      assert p == [p[0]] + p[1..];
    }
  }

  lemma {:induction false} StartsWithAppend(p: string, t: string)
    ensures StartsWith(p + t, p)
    decreases |p|
  {
    if p != [] {
      assert (p + t)[1..] == p[1..] + t;
      StartsWithAppend(p[1..], t);
    }
  }

  /** `s` ends with `p`, like `String.prototype.endsWith`. */
  predicate EndsWith(s: string, p: string)
    decreases |p|
  {
    p == [] || (s != [] && s[|s| - 1] == p[|p| - 1] && EndsWith(s[..|s| - 1], p[..|p| - 1]))
  }

  lemma {:induction false} EndsWithSplit(s: string, p: string)
    requires EndsWith(s, p)
    ensures |p| <= |s| && s == s[..|s| - |p|] + p
    decreases |p|
  {
    if p != [] {
      var s' := s[..|s| - 1];
      var p' := p[..|p| - 1];
      EndsWithSplit(s', p');
      assert s'[..|s'| - |p'|] == s[..|s| - |p|];
      assert s == s' + [s[|s| - 1]];
      assert p == p' + [p[|p| - 1]];
    }
  }

  lemma {:induction false} EndsWithAppend(t: string, p: string)
    ensures EndsWith(t + p, p)
    decreases |p|
  {
    if p != [] {
      var p' := p[..|p| - 1];
      assert (t + p)[..|t + p| - 1] == t + p';
      EndsWithAppend(t, p');
    }
  }

  /** Cuts `s` around position `i` and its last character. */
  lemma Around(s: string, i: nat)
    requires i < |s| - 1
    ensures s == s[..i] + [s[i]] + s[i + 1..|s| - 1] + [s[|s| - 1]]
  {
    assert s == s[..i] + s[i..];
    assert s[i..] == [s[i]] + s[i + 1..|s| - 1] + [s[|s| - 1]];
  }
}
