/**
 * Python's `str.replace(old, new)`: every occurrence of `old`, found left to
 * right without overlaps, is replaced by `new`; the replacement text is never
 * searched again. An empty `old` inserts `new` before every character and at
 * the end, as Python does.
 */
module Replace {

  predicate StartsWith(s: string, p: string) {
    |p| <= |s| && s[..|p|] == p
  }

  /** A prefix test on a string with a known first character. */
  lemma StartsWithCons(c: char, x: string, p: string)
    requires p != []
    ensures StartsWith([c] + x, p) <==> p[0] == c && StartsWith(x, p[1..])
  {
    if StartsWith([c] + x, p) {
      assert x[..|p| - 1] == ([c] + x)[..|p|][1..];
    }
    if p[0] == c && StartsWith(x, p[1..]) {
      assert ([c] + x)[..|p|] == [c] + x[..|p| - 1];
    }
  }

  /** `[c] + y` cannot start with `p` when c or the first character of y differs from p's. */
  lemma NoPrefixAtPair(c: char, y: string, p: string)
    requires |p| >= 2 && (p[0] != c || y == [] || y[0] != p[1])
    ensures !StartsWith([c] + y, p)
  {
    StartsWithCons(c, y, p);
    if StartsWith(y, p[1..]) {
      assert y[0] == y[..|p| - 1][0];
    }
  }

  lemma StartsWithLonger(s: string, p: string, q: string)
    ensures StartsWith(s, p + q) ==> StartsWith(s, p)
  {
    if StartsWith(s, p + q) {
      assert s[..|p|] == s[..|p + q|][..|p|];
    }
  }

  /** `s.replace(old_, new_)`; replacing a text by itself, as the CJK date markers do, changes nothing. */
  function ReplaceAll(s: string, old_: string, new_: string): (r: string)
    ensures old_ != [] && new_ == old_ ==> r == s
    decreases |s|
  {
    if old_ == [] then
      if s == [] then new_ else new_ + [s[0]] + ReplaceAll(s[1..], old_, new_)
    else if s == [] then []
    else if StartsWith(s, old_) then
      var r := new_ + ReplaceAll(s[|old_|..], old_, new_);
      assert new_ == old_ ==> r == s by {
        assert s == s[..|old_|] + s[|old_|..];
      }
      r
    else [s[0]] + ReplaceAll(s[1..], old_, new_)
  }

  /** A string with no occurrence of `old_` comes back unchanged. */
  lemma {:induction false} ReplaceAbsent(s: string, old_: string, new_: string)
    requires old_ != []
    requires old_[0] !in s
    ensures ReplaceAll(s, old_, new_) == s
  {
    if s != [] {
      ReplaceAbsent(s[1..], old_, new_);
    }
  }

  /**
   * A prefix that holds no character starting `old_` passes through, and the
   * rest is replaced on its own.
   */
  lemma {:induction false} ReplacePassesPrefix(d: string, x: string, old_: string, new_: string)
    requires old_ != []
    requires old_[0] !in d
    ensures ReplaceAll(d + x, old_, new_) == d + ReplaceAll(x, old_, new_)
  {
    if d != [] {
      var y := d[1..] + x;
      assert d + x == [d[0]] + y;
      StartsWithCons(d[0], y, old_);
      NoMatchAtFront(d[0], y, old_, new_);
      ReplacePassesPrefix(d[1..], x, old_, new_);
      assert [d[0]] + (d[1..] + ReplaceAll(x, old_, new_)) == d + ReplaceAll(x, old_, new_) by {
        assert [d[0]] + d[1..] == d;
      }
    } else {
      assert d + x == x;
    }
  }

  /** An occurrence at the front is replaced and the scan resumes after it. */
  lemma ReplaceAtFront(x: string, old_: string, new_: string)
    requires old_ != []
    ensures ReplaceAll(old_ + x, old_, new_) == new_ + ReplaceAll(x, old_, new_)
  {
    assert StartsWith(old_ + x, old_);
    assert (old_ + x)[|old_|..] == x;
  }

  /** A first character at which `old_` does not start is copied. */
  lemma NoMatchAtFront(c: char, x: string, old_: string, new_: string)
    requires old_ != [] && !StartsWith([c] + x, old_)
    ensures ReplaceAll([c] + x, old_, new_) == [c] + ReplaceAll(x, old_, new_)
  {
    assert ([c] + x)[1..] == x;
  }

  /**
   * When neither `x` nor `new_` begins with `c`, the replaced string does not
   * begin with `c` either.
   */
  lemma ReplaceKeepsFirstChar(x: string, old_: string, new_: string, c: char)
    requires old_ != [] && new_ != [] && new_[0] != c
    requires x == [] || x[0] != c
    ensures ReplaceAll(x, old_, new_) == [] || ReplaceAll(x, old_, new_)[0] != c
  {
  }

  /** The loop `for key, val in replacements: result = result.replace(key, val)`. */
  function ReplaceChain(s: string, table: seq<(string, string)>): string
    decreases table
  {
    if table == [] then s else ReplaceChain(ReplaceAll(s, table[0].0, table[0].1), table[1..])
  }
}
