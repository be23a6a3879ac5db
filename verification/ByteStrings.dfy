/** Byte strings and their order: Go strings, row keys and the clustering order
    in which a table is scanned. */
module ByteStrings {
  type byte = x: int | 0 <= x < 256
  type Bytes = seq<byte>

  const APPLICATION_PREFIX: Bytes := [97, 112, 112, 108, 105, 99, 97, 110, 116, 58]  // "applicant:"
  const APPLICATION_END: Bytes := [97, 112, 112, 108, 105, 99, 97, 110, 116, 59]     // "applicant;"

  /** The bytes of ASCII text. */
  function Ascii(s: string): Bytes {
    seq(|s|, i requires 0 <= i < |s| => if s[i] < 128 as char then s[i] as int else 0)
  }

  lemma PrefixesSpell()
    ensures APPLICATION_PREFIX == Ascii("applicant:") && APPLICATION_END == Ascii("applicant;")
  {
  }

  /** Strict byte-lexicographic order, the order of row keys. */
  predicate Less(a: Bytes, b: Bytes) {
    |b| > 0 && (|a| == 0 || a[0] < b[0] || (a[0] == b[0] && Less(a[1..], b[1..])))
  }

  lemma {:induction false} LessIrreflexive(a: Bytes)
    ensures !Less(a, a)
  {
    if a == [] {
    } else {
      LessIrreflexive(a[1..]);
    }
  }

  lemma {:induction false} LessTransitive(a: Bytes, b: Bytes, c: Bytes)
    requires Less(a, b) && Less(b, c)
    ensures Less(a, c)
  {
    if a != [] && a[0] == b[0] && b[0] == c[0] { LessTransitive(a[1..], b[1..], c[1..]); }
  }

  lemma LessAsymmetric(a: Bytes, b: Bytes)
    requires Less(a, b)
    ensures !Less(b, a) && a != b
  {
    LessIrreflexive(a);
    if Less(b, a) { LessTransitive(a, b, a); }
  }

  /** Under a common prefix the order of keys is the order of what follows it. */
  lemma {:induction false} LessUnderPrefix(p: Bytes, a: Bytes, b: Bytes)
    ensures Less(p + a, p + b) <==> Less(a, b)
  {
    if p == [] {
      assert p + a == a && p + b == b;
    } else {
      assert (p + a)[1..] == p[1..] + a && (p + b)[1..] == p[1..] + b;
      LessUnderPrefix(p[1..], a, b);
    }
  }

  lemma {:induction false} LessOfExtension(a: Bytes, x: Bytes)
    requires x != []
    ensures Less(a, a + x)
  {
    if a == [] {
    } else {
      assert (a + x)[1..] == a[1..] + x;
      LessOfExtension(a[1..], x);
    }
  }

  /** Appending NUL gives the immediate successor in the key order, so "after `a` NUL"
      differs from "after `a`" in exactly one key: `a` NUL itself. */
  lemma {:induction false} AfterNul(a: Bytes, k: Bytes)
    ensures Less(a + [0], k) <==> Less(a, k) && k != a + [0]
  {
    if a == [] {
      assert a + [0] == [0];
      if k != [] && k[0] == 0 { assert k == [0] + k[1..]; }
    } else {
      assert (a + [0])[1..] == a[1..] + [0];
      if k != [] && k[0] == a[0] {
        AfterNul(a[1..], k[1..]);
        assert k == [k[0]] + k[1..] && a + [0] == [a[0]] + (a[1..] + [0]);
      }
    }
  }

  /** The open range from `stem c` to `stem (c+1)` is exactly the proper extensions of `stem c`. */
  lemma {:induction false} RangeIsProperExtensions(stem: Bytes, c: byte, k: Bytes)
    requires c < 255
    ensures Less(stem + [c], k) && Less(k, stem + [c + 1]) <==> stem + [c] < k
  {
    if stem == [] {
      assert stem + [c] == [c] && stem + [c + 1] == [c + 1];
      if k != [] { assert k == [k[0]] + k[1..]; }
    } else {
      assert (stem + [c])[1..] == stem[1..] + [c] && (stem + [c + 1])[1..] == stem[1..] + [c + 1];
      if k != [] && k[0] == stem[0] {
        RangeIsProperExtensions(stem[1..], c, k[1..]);
        assert k == [k[0]] + k[1..];
        assert stem + [c] == [stem[0]] + (stem[1..] + [c]);
        assert stem + [c + 1] == [stem[0]] + (stem[1..] + [c + 1]);
      }
    }
  }
}
