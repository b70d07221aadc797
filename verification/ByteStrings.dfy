/**
 Byte strings in lexicographic order: what `compareUtf8` sorts names by, what
 `bytea` columns compare by, and the half-open byte range STARTSWITH compiles to.
 */
module ByteStrings {
  import opened Wrappers

  type Byte = b: int | 0 <= b < 256
  type ByteString = seq<Byte>

  /** `a` sorts strictly before `b`, bytewise. */
  predicate Before(a: ByteString, b: ByteString)
    decreases |a|
  {
    b != [] && (a == [] || a[0] < b[0] || (a[0] == b[0] && Before(a[1..], b[1..])))
  }

  predicate AtMost(a: ByteString, b: ByteString) {
    a == b || Before(a, b)
  }

  lemma {:induction false} BeforeIsIrreflexive(a: ByteString)
    ensures !Before(a, a)
  {
    if a != [] {
      BeforeIsIrreflexive(a[1..]);
    }
  }

  lemma {:induction false} BeforeIsTransitive(a: ByteString, b: ByteString, c: ByteString)
    requires Before(a, b) && Before(b, c)
    ensures Before(a, c)
  {
    if a != [] && a[0] == b[0] && b[0] == c[0] {
      BeforeIsTransitive(a[1..], b[1..], c[1..]);
    }
  }

  /** Exactly one of "before", "equal" and "after" holds. */
  lemma {:induction false} BeforeIsTotal(a: ByteString, b: ByteString)
    ensures a == b || Before(a, b) || Before(b, a)
    ensures !(Before(a, b) && Before(b, a))
    ensures Before(a, b) ==> a != b
  {
    if a != [] && b != [] {
      BeforeIsTotal(a[1..], b[1..]);
      if a[0] == b[0] && a[1..] == b[1..] {
        assert a == [a[0]] + a[1..] == [b[0]] + b[1..] == b;
      }
    }
    if Before(a, b) {
      BeforeIsIrreflexive(a);
    }
  }

  /** The prefix with its trailing 0xff bytes dropped. */
  function TrimTop(prefix: ByteString): (kept: ByteString)
    ensures kept <= prefix
    ensures forall i :: |kept| <= i < |prefix| ==> prefix[i] == 255
    ensures kept == [] || kept[|kept| - 1] != 255
  {
    if prefix != [] && prefix[|prefix| - 1] == 255 then TrimTop(prefix[..|prefix| - 1]) else prefix
  }

  /** The smallest byte string above everything that starts with `prefix`. */
  function NextPrefix(prefix: ByteString): Option<ByteString> {
    var kept := TrimTop(prefix);
    if kept == [] then None else Some(kept[..|kept| - 1] + [kept[|kept| - 1] + 1])
  }

  /** Equal strings cut at the same place have equal parts. */
  lemma SplitConcat(a: ByteString, b: ByteString, c: ByteString, d: ByteString)
    requires |a| == |c| && a + b == c + d
    ensures a == c && b == d
  {
    assert a == (a + b)[..|a|] == (c + d)[..|c|] == c;
    assert b == (a + b)[|a|..] == (c + d)[|c|..] == d;
  }

  /** Comparing two strings with a common first part compares what follows it. */
  lemma {:induction false} BeforeAfterCommonPart(p: ByteString, a: ByteString, b: ByteString)
    ensures Before(p + a, p + b) == Before(a, b)
  {
    if p == [] {
      assert p + a == a && p + b == b;
    } else {
      assert (p + a)[1..] == p[1..] + a && (p + b)[1..] == p[1..] + b;
      BeforeAfterCommonPart(p[1..], a, b);
    }
  }

  /** A string below the successor of `p + [c]` but not below it starts with it. */
  lemma {:induction false} RangeOfOne(p: ByteString, c: Byte, s: ByteString)
    requires c < 255
    requires !Before(s, p + [c]) && Before(s, p + [c + 1])
    ensures p + [c] <= s
  {
    if p == [] {
      assert p + [c] == [c] && p + [c + 1] == [c + 1];
      assert s != [] && s[0] == c;
    } else {
      assert (p + [c])[1..] == p[1..] + [c] && (p + [c + 1])[1..] == p[1..] + [c + 1];
      assert s != [] && s[0] == p[0];
      RangeOfOne(p[1..], c, s[1..]);
      assert s == [s[0]] + s[1..];
    }
  }

  /** A tail of 0xff bytes is beaten only by strings that start with it. */
  lemma {:induction false} TopTail(t: ByteString, s: ByteString)
    requires forall i :: 0 <= i < |t| ==> t[i] == 255
    requires !Before(s, t)
    ensures t <= s
  {
    if t != [] {
      assert s != [] && s[0] == 255;
      TopTail(t[1..], s[1..]);
      assert s == [s[0]] + s[1..] && t == [t[0]] + t[1..];
    }
  }

  lemma {:induction false} ExtensionIsNotBefore(p: ByteString, t: ByteString)
    ensures !Before(p + t, p)
  {
    BeforeAfterCommonPart(p, t, []);
    assert p + [] == p;
  }

  lemma PrefixIsInRange(s: ByteString, prefix: ByteString)
    requires prefix <= s
    ensures AtMost(prefix, s) && (NextPrefix(prefix).Some? ==> Before(s, NextPrefix(prefix).value))
  {
    var kept := TrimTop(prefix);
    var t := s[|prefix|..];
    assert s == prefix + t;
    BeforeIsTotal(prefix, s);
    ExtensionIsNotBefore(prefix, t);
    if kept != [] {
      var p, c := kept[..|kept| - 1], kept[|kept| - 1];
      var rest := s[|kept|..];
      assert s == p + ([c] + rest);
      BeforeAfterCommonPart(p, [c] + rest, [c + 1]);
    }
  }

  lemma RangeIsPrefix(s: ByteString, prefix: ByteString)
    requires AtMost(prefix, s) && (NextPrefix(prefix).Some? ==> Before(s, NextPrefix(prefix).value))
    ensures prefix <= s
  {
    var kept := TrimTop(prefix);
    var top := prefix[|kept|..];
    assert prefix == kept + top;
    BeforeIsTotal(prefix, s);
    ExtensionIsNotBefore(kept, top);
    if Before(s, kept) && prefix != s {
      BeforeIsTransitive(prefix, s, kept);
    }
    if kept != [] {
      var p, c := kept[..|kept| - 1], kept[|kept| - 1];
      assert kept == p + [c];
      RangeOfOne(p, c, s);
    }
    var t := s[|kept|..];
    assert s == kept + t;
    BeforeAfterCommonPart(kept, t, top);
    TopTail(top, t);
  }

  /**
   STARTSWITH is the range scan the SQL makes: a string starts with the prefix
   exactly when it is at or above it and below the next prefix, where there is one.
   */
  lemma PrefixIsRange(s: ByteString, prefix: ByteString)
    ensures prefix <= s <==>
            AtMost(prefix, s) && (NextPrefix(prefix).None? || Before(s, NextPrefix(prefix).value))
  {
    if prefix <= s {
      PrefixIsInRange(s, prefix);
    } else if AtMost(prefix, s) && (NextPrefix(prefix).None? || Before(s, NextPrefix(prefix).value)) {
      RangeIsPrefix(s, prefix);
    }
  }

  /** `nextBytePrefix`: walk back over 0xff bytes, copy what is left, bump its last byte. */
  method NextBytePrefix(prefix: array<Byte>) returns (next: array?<Byte>)
    ensures prefix[..] == old(prefix[..])
    ensures next == null <==> NextPrefix(prefix[..]).None?
    ensures next != null ==> fresh(next) && NextPrefix(prefix[..]) == Some(next[..])
  {
    var end := prefix.Length;
    assert prefix[..end] == prefix[..];
    while end > 0 && prefix[end - 1] == 255
      invariant 0 <= end <= prefix.Length
      invariant TrimTop(prefix[..]) == TrimTop(prefix[..end])
    {
      assert prefix[..end][..end - 1] == prefix[..end - 1];
      end := end - 1;
    }
    if end == 0 {
      return null;
    }
    next := new Byte[end](i requires 0 <= i < end <= prefix.Length reads prefix => prefix[i]);
    assert next[..] == prefix[..end];
    next[end - 1] := next[end - 1] + 1;
    assert next[..] == prefix[..end][..end - 1] + [prefix[end - 1] + 1];
  }
}
