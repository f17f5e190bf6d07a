/**
 * The string operations the service relies on, over strings of Unicode
 * scalar values (a Go string decoded from JSON is valid UTF-8, so it is
 * such a sequence): splitting on a one-character separator, trimming,
 * Go's `len` (a UTF-8 byte count) and the alphanumeric filter applied to
 * the retailer name.
 */
module Strings {

  /** Number of occurrences of `c` in `s`. */
  function Occurrences(s: string, c: char): nat
  {
    if s == [] then 0 else (if s[0] == c then 1 else 0) + Occurrences(s[1..], c)
  }

  /** The pieces joined back together with `sep` between them (Go's strings.Join). */
  function Join(parts: seq<string>, sep: char): string
  {
    if |parts| == 0 then []
    else if |parts| == 1 then parts[0]
    else parts[0] + [sep] + Join(parts[1..], sep)
  }

  /**
   * Go's strings.Split with a one-character separator: the maximal pieces
   * between separators, one more piece than there are separators, so the
   * empty string splits into one empty piece.
   */
  function Split(s: string, sep: char): (parts: seq<string>)
    ensures |parts| >= 1
  {
    if s == [] then [[]]
    else
      var rest := Split(s[1..], sep);
      if s[0] == sep then [[]] + rest
      else [[s[0]] + rest[0]] + rest[1..]
  }

  /**
   * The pieces of a split: one more than there are separators, none
   * holding the separator, and joined with the separator they give back
   * the string.
   */
  lemma SplitPieces(s: string, sep: char)
    ensures var parts := Split(s, sep);
      && |parts| == Occurrences(s, sep) + 1
      && (forall i :: 0 <= i < |parts| ==> sep !in parts[i])
      && Join(parts, sep) == s
  {
    SplitCount(s, sep);
    SplitPiecesFree(s, sep);
    SplitJoinsBack(s, sep);
  }

  /** One piece more than there are separators. */
  lemma {:induction false} SplitCount(s: string, sep: char)
    ensures |Split(s, sep)| == Occurrences(s, sep) + 1
  {
    if s != [] {
      SplitCount(s[1..], sep);
    }
  }

  /** No piece holds the separator. */
  lemma {:induction false} SplitPiecesFree(s: string, sep: char)
    ensures forall i :: 0 <= i < |Split(s, sep)| ==> sep !in Split(s, sep)[i]
  {
    if s != [] {
      var rest := Split(s[1..], sep);
      SplitPiecesFree(s[1..], sep);
      if s[0] != sep {
        var parts := [[s[0]] + rest[0]] + rest[1..];
        assert Split(s, sep) == parts;
        forall i | 0 <= i < |parts| ensures sep !in parts[i] {
          if i > 0 {
            assert parts[i] == rest[i];
          } else {
            assert sep !in rest[0];
            assert forall k :: 0 <= k < |parts[0]| ==> parts[0][k] == s[0] || parts[0][k] == rest[0][k - 1];
          }
        }
      } else {
        assert forall i :: 1 <= i < |rest| + 1 ==> ([[]] + rest)[i] == rest[i - 1];
      }
    }
  }

  /** Joining the pieces with the separator gives back the string. */
  lemma {:induction false} SplitJoinsBack(s: string, sep: char)
    ensures Join(Split(s, sep), sep) == s
  {
    if s != [] {
      var rest := Split(s[1..], sep);
      SplitJoinsBack(s[1..], sep);
      if s[0] == sep {
        assert ([[]] + rest)[1..] == rest;
        assert Join([[]] + rest, sep) == [] + [sep] + Join(rest, sep);
      } else {
        var parts := [[s[0]] + rest[0]] + rest[1..];
        assert parts[1..] == rest[1..];
        if |rest| == 1 {
          assert Join(parts, sep) == [s[0]] + rest[0];
          assert Join(rest, sep) == rest[0];
        } else {
          assert Join(rest, sep) == rest[0] + [sep] + Join(rest[1..], sep);
          assert Join(parts, sep) == [s[0]] + rest[0] + [sep] + Join(rest[1..], sep);
        }
      }
      assert s == [s[0]] + s[1..];
    }
  }

  /** Splitting a piece that holds no separator in front of the rest extends the rest's first piece. */
  lemma {:induction false} SplitPrefix(a: string, sep: char, t: string)
    requires sep !in a
    ensures Split(a + t, sep) == [a + Split(t, sep)[0]] + Split(t, sep)[1..]
  {
    if a != [] {
      assert (a + t)[1..] == a[1..] + t;
      SplitPrefix(a[1..], sep, t);
      assert [a[0]] + (a[1..] + Split(t, sep)[0]) == a + Split(t, sep)[0];
    } else {
      assert a + t == t && a + Split(t, sep)[0] == Split(t, sep)[0];
    }
  }

  /** Split undoes Join: the pieces of a join of separator-free pieces are those pieces. */
  lemma {:induction false} SplitJoin(parts: seq<string>, sep: char)
    requires |parts| >= 1
    requires forall i :: 0 <= i < |parts| ==> sep !in parts[i]
    ensures Split(Join(parts, sep), sep) == parts
  {
    if |parts| == 1 {
      assert Split([], sep) == [[]];
      SplitPrefix(parts[0], sep, []);
      assert parts[0] + [] == parts[0];
    } else {
      var rest := Join(parts[1..], sep);
      assert Join(parts, sep) == parts[0] + ([sep] + rest);
      assert Split([sep] + rest, sep) == [[]] + parts[1..] by {
        assert forall i :: 0 <= i < |parts[1..]| ==> parts[1..][i] == parts[i + 1];
        SplitJoin(parts[1..], sep);
        assert ([sep] + rest)[1..] == rest;
      }
      SplitPrefix(parts[0], sep, [sep] + rest);
      assert parts[0] + [] == parts[0];
      assert [parts[0]] + parts[1..] == parts;
    }
  }

  /** Go's unicode.IsSpace: the Unicode White_Space property. */
  predicate IsSpace(c: char)
  {
    var n := c as int;
    (9 <= n <= 13) || n == 0x20 || n == 0x85 || n == 0xA0 || n == 0x1680
    || (0x2000 <= n <= 0x200A) || n == 0x2028 || n == 0x2029 || n == 0x202F
    || n == 0x205F || n == 0x3000
  }

  function TrimLeftSpace(s: string): string
  {
    if s != [] && IsSpace(s[0]) then TrimLeftSpace(s[1..]) else s
  }

  function TrimRightSpace(s: string): string
  {
    if s != [] && IsSpace(s[|s| - 1]) then TrimRightSpace(s[..|s| - 1]) else s
  }

  /** Go's strings.TrimSpace: `s` without its leading and trailing white space. */
  function TrimSpace(s: string): string
  {
    TrimRightSpace(TrimLeftSpace(s))
  }

  /** TrimLeftSpace drops a prefix made only of white space and stops at the first other character. */
  lemma {:induction false} TrimLeftSpaceDrops(s: string)
    ensures var r := TrimLeftSpace(s);
      && |r| <= |s| && r == s[|s| - |r|..]
      && (r == [] || !IsSpace(r[0]))
      && forall k :: 0 <= k < |s| - |r| ==> IsSpace(s[k])
  {
    if s != [] && IsSpace(s[0]) {
      TrimLeftSpaceDrops(s[1..]);
      assert forall k :: 1 <= k < |s| ==> s[k] == s[1..][k - 1];
    }
  }

  /** TrimRightSpace drops a suffix made only of white space and stops at the last other character. */
  lemma {:induction false} TrimRightSpaceDrops(s: string)
    ensures var r := TrimRightSpace(s);
      && |r| <= |s| && r == s[..|r|]
      && (r == [] || !IsSpace(r[|r| - 1]))
      && forall k :: |r| <= k < |s| ==> IsSpace(s[k])
  {
    if s != [] && IsSpace(s[|s| - 1]) {
      TrimRightSpaceDrops(s[..|s| - 1]);
    }
  }

  /** Every character of `s` is white space. */
  predicate AllSpace(s: string)
  {
    forall k :: 0 <= k < |s| ==> IsSpace(s[k])
  }

  /**
   * TrimSpace keeps the middle of `s`: a slice that neither starts nor ends
   * with white space, and everything cut off on either side is white space.
   */
  lemma TrimSpaceKeepsMiddle(s: string)
    ensures var r := TrimSpace(s);
      && (r == [] || (!IsSpace(r[0]) && !IsSpace(r[|r| - 1])))
      && exists i :: 0 <= i <= |s| - |r| && AllSpace(s[..i]) && r == s[i..i + |r|] && AllSpace(s[i + |r|..])
  {
    var l := TrimLeftSpace(s);
    TrimLeftSpaceDrops(s);
    TrimRightSpaceDrops(l);
    var r := TrimSpace(s);
    var i := |s| - |l|;
    assert r == s[i..i + |r|];
    assert AllSpace(s[..i]);
    assert forall k :: i + |r| <= k < |s| ==> s[k] == l[k - i];
    assert AllSpace(s[i + |r|..]);
  }

  /** TrimSpace removes exactly the white space around a middle that starts and ends with other characters. */
  lemma TrimSpaceSurrounded(pre: string, x: string, post: string)
    requires AllSpace(pre) && AllSpace(post)
    requires x != [] && !IsSpace(x[0]) && !IsSpace(x[|x| - 1])
    ensures TrimSpace(pre + x + post) == x
  {
    var s := pre + x + post;
    assert forall k :: 0 <= k < |pre| ==> s[k] == pre[k];
    assert s[|pre|] == x[0];
    TrimLeftSpaceDrops(s);
    var l := TrimLeftSpace(s);
    assert |s| - |l| == |pre|;
    assert l == x + post;
    TrimRightSpaceDrops(l);
    assert forall k :: |x| <= k < |l| ==> l[k] == post[k - |x|];
    assert l[|x| - 1] == x[|x| - 1];
  }

  function TrimLeft(s: string, cutset: string): string
  {
    if s != [] && s[0] in cutset then TrimLeft(s[1..], cutset) else s
  }

  function TrimRight(s: string, cutset: string): string
  {
    if s != [] && s[|s| - 1] in cutset then TrimRight(s[..|s| - 1], cutset) else s
  }

  /** Go's strings.Trim: `s` without the leading and trailing characters that occur in `cutset`. */
  function Trim(s: string, cutset: string): string
  {
    TrimRight(TrimLeft(s, cutset), cutset)
  }

  /** TrimLeft drops a prefix made only of cut characters and stops at the first kept one. */
  lemma {:induction false} TrimLeftDrops(s: string, cutset: string)
    ensures var r := TrimLeft(s, cutset);
      && |r| <= |s| && r == s[|s| - |r|..]
      && (r == [] || r[0] !in cutset)
      && forall k :: 0 <= k < |s| - |r| ==> s[k] in cutset
  {
    if s != [] && s[0] in cutset {
      TrimLeftDrops(s[1..], cutset);
      assert forall k :: 1 <= k < |s| ==> s[k] == s[1..][k - 1];
    }
  }

  /** TrimRight drops a suffix made only of cut characters and stops at the last kept one. */
  lemma {:induction false} TrimRightDrops(s: string, cutset: string)
    ensures var r := TrimRight(s, cutset);
      && |r| <= |s| && r == s[..|r|]
      && (r == [] || r[|r| - 1] !in cutset)
      && forall k :: |r| <= k < |s| ==> s[k] in cutset
  {
    if s != [] && s[|s| - 1] in cutset {
      TrimRightDrops(s[..|s| - 1], cutset);
    }
  }

  /** Every character of `s` occurs in `cutset`. */
  predicate AllCut(s: string, cutset: string)
  {
    forall k :: 0 <= k < |s| ==> s[k] in cutset
  }

  /**
   * Trim keeps the middle of `s`: a slice that neither starts nor ends
   * with a cut character, and everything cut off on either side is made
   * of cut characters.
   */
  lemma TrimKeepsMiddle(s: string, cutset: string)
    ensures var r := Trim(s, cutset);
      && (r == [] || (r[0] !in cutset && r[|r| - 1] !in cutset))
      && exists i :: 0 <= i <= |s| - |r| && AllCut(s[..i], cutset) && r == s[i..i + |r|] && AllCut(s[i + |r|..], cutset)
  {
    var l := TrimLeft(s, cutset);
    TrimLeftDrops(s, cutset);
    TrimRightDrops(l, cutset);
    var r := Trim(s, cutset);
    var i := |s| - |l|;
    assert r == s[i..i + |r|];
    assert AllCut(s[..i], cutset);
    assert forall k :: i + |r| <= k < |s| ==> s[k] == l[k - i];
    assert AllCut(s[i + |r|..], cutset);
  }

  /** Trim removes exactly the cut characters around a middle that starts and ends with kept ones. */
  lemma {:induction false} TrimSurrounded(pre: string, x: string, post: string, cutset: string)
    requires forall k :: 0 <= k < |pre| ==> pre[k] in cutset
    requires forall k :: 0 <= k < |post| ==> post[k] in cutset
    requires x != [] && x[0] !in cutset && x[|x| - 1] !in cutset
    ensures Trim(pre + x + post, cutset) == x
  {
    if pre != [] {
      assert (pre + x + post)[1..] == pre[1..] + x + post;
      TrimSurrounded(pre[1..], x, post, cutset);
    } else if post != [] {
      var post' := post[..|post| - 1];
      assert (pre + x + post)[..|pre + x + post| - 1] == pre + x + post';
      TrimSurrounded(pre, x, post', cutset);
    } else {
      assert pre + x + post == x;
    }
  }

  /**
   * For a middle that starts and ends with kept characters, Trim gives
   * exactly that middle when `s` is the middle with cut characters around it.
   */
  lemma TrimEquals(s: string, x: string, cutset: string)
    requires x != [] && x[0] !in cutset && x[|x| - 1] !in cutset
    ensures Trim(s, cutset) == x <==>
      exists i :: 0 <= i <= |s| - |x| && AllCut(s[..i], cutset) && s[i..i + |x|] == x && AllCut(s[i + |x|..], cutset)
  {
    TrimKeepsMiddle(s, cutset);
    forall i | 0 <= i <= |s| - |x| && AllCut(s[..i], cutset) && s[i..i + |x|] == x && AllCut(s[i + |x|..], cutset)
      ensures Trim(s, cutset) == x
    {
      TrimAround(s, x, cutset, i);
    }
  }

  /** `s` read as cut characters, then `x` from index `i`, then cut characters, trims to `x`. */
  lemma TrimAround(s: string, x: string, cutset: string, i: nat)
    requires x != [] && x[0] !in cutset && x[|x| - 1] !in cutset
    requires i <= |s| - |x| && AllCut(s[..i], cutset) && s[i..i + |x|] == x && AllCut(s[i + |x|..], cutset)
    ensures Trim(s, cutset) == x
  {
    assert s == s[..i] + x + s[i + |x|..];
    TrimSurrounded(s[..i], x, s[i + |x|..], cutset);
  }

  /** Number of bytes of the UTF-8 encoding of `c`. */
  function Utf8Width(c: char): (w: nat)
    ensures 1 <= w <= 4
    ensures w == 1 <==> (c as int) < 0x80
  {
    var n := c as int;
    if n < 0x80 then 1 else if n < 0x800 then 2 else if n < 0x1_0000 then 3 else 4
  }

  /** Go's `len` of a string: the length in bytes of its UTF-8 encoding. */
  function Utf8Len(s: string): (n: nat)
    ensures n >= |s|
  {
    if s == [] then 0 else Utf8Width(s[0]) + Utf8Len(s[1..])
  }

  predicate IsAscii(s: string)
  {
    forall i :: 0 <= i < |s| ==> (s[i] as int) < 0x80
  }

  /** On ASCII text the byte length is the character count; any other character makes it longer. */
  lemma {:induction false} Utf8LenAscii(s: string)
    ensures Utf8Len(s) == |s| <==> IsAscii(s)
  {
    if s != [] {
      Utf8LenAscii(s[1..]);
      assert IsAscii(s) <==> (s[0] as int) < 0x80 && IsAscii(s[1..]) by {
        if IsAscii(s) {
          forall i | 0 <= i < |s[1..]| ensures (s[1..][i] as int) < 0x80 {
            assert s[1..][i] == s[i + 1];
          }
        }
        if (s[0] as int) < 0x80 && IsAscii(s[1..]) {
          forall i | 0 <= i < |s| ensures (s[i] as int) < 0x80 {
            if i > 0 { assert s[i] == s[1..][i - 1]; }
          }
        }
      }
    }
  }

  predicate IsAsciiAlnum(c: char)
  {
    ('a' <= c <= 'z') || ('A' <= c <= 'Z') || ('0' <= c <= '9')
  }

  /**
   * Replacing every match of the regular expression `[^a-zA-Z0-9]+` with
   * the empty string: what remains are the ASCII letters and digits of `s`,
   * in order.
   */
  function StripNonAlnum(s: string): (r: string)
    ensures |r| <= |s|
    ensures forall i :: 0 <= i < |r| ==> IsAsciiAlnum(r[i])
  {
    if s == [] then []
    else if IsAsciiAlnum(s[0]) then [s[0]] + StripNonAlnum(s[1..])
    else StripNonAlnum(s[1..])
  }

  /** The filter works piecewise: filtering a concatenation concatenates the filtered parts. */
  lemma {:induction false} StripNonAlnumAppend(s: string, t: string)
    ensures StripNonAlnum(s + t) == StripNonAlnum(s) + StripNonAlnum(t)
  {
    if s != [] {
      assert (s + t)[1..] == s[1..] + t;
      StripNonAlnumAppend(s[1..], t);
    } else {
      assert s + t == t;
    }
  }

  /** The filter keeps a string of letters and digits whole, so applying it twice changes nothing. */
  lemma {:induction false} StripNonAlnumKeepsAlnum(s: string)
    requires forall i :: 0 <= i < |s| ==> IsAsciiAlnum(s[i])
    ensures StripNonAlnum(s) == s
  {
    if s != [] {
      StripNonAlnumKeepsAlnum(s[1..]);
    }
  }
}
