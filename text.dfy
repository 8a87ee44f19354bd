/** String primitives the catalog relies on: `toLowerCase`, the regular-expression
    class `\s`, `String.prototype.includes` and `replace(/\s+/g, "-")`. */
module Text {

  /** `toLowerCase` on one character, refined to ASCII: 'A'..'Z' map to 'a'..'z',
      every other character is left alone. */
  function LowerChar(c: char): char
  {
    if 'A' <= c <= 'Z' then (c as int - 'A' as int + 'a' as int) as char else c
  }

  /** `toLowerCase` on a string, character by character. */
  function Lower(s: string): (r: string)
    ensures |r| == |s|
    ensures forall i :: 0 <= i < |s| ==> r[i] == LowerChar(s[i])
  {
    seq(|s|, i requires 0 <= i < |s| => LowerChar(s[i]))
  }

  lemma LowerAppend(a: string, b: string)
    ensures Lower(a + b) == Lower(a) + Lower(b)
  {
    assert forall i :: 0 <= i < |a + b| ==> Lower(a + b)[i] == (Lower(a) + Lower(b))[i];
  }

  /** The ECMAScript `\s` class: the WhiteSpace and LineTerminator code points. */
  predicate IsSpace(c: char)
  {
    var k := c as int;
    k == 0x09 || k == 0x0A || k == 0x0B || k == 0x0C || k == 0x0D || k == 0x20 ||
    k == 0xA0 || k == 0x1680 || (0x2000 <= k <= 0x200A) || k == 0x2028 || k == 0x2029 ||
    k == 0x202F || k == 0x205F || k == 0x3000 || k == 0xFEFF
  }

  predicate NoSpace(s: string)
  {
    forall i :: 0 <= i < |s| ==> !IsSpace(s[i])
  }

  predicate AllSpace(s: string)
  {
    forall i :: 0 <= i < |s| ==> IsSpace(s[i])
  }

  /** s is empty or its last character is not whitespace: a run cannot extend to the left. */
  predicate EndsSolid(s: string)
  {
    s == [] || !IsSpace(s[|s| - 1])
  }

  /** s is empty or its first character is not whitespace: a run cannot extend to the right. */
  predicate StartsSolid(s: string)
  {
    s == [] || !IsSpace(s[0])
  }

  /** Lower-casing never creates or removes whitespace. */
  lemma LowerKeepsSpace(s: string)
    ensures AllSpace(s) ==> AllSpace(Lower(s))
    ensures EndsSolid(s) ==> EndsSolid(Lower(s))
    ensures StartsSolid(s) ==> StartsSolid(Lower(s))
  {
  }

  /** The string without its leading whitespace run. */
  function DropSpaces(s: string): (r: string)
    ensures |r| <= |s| && r == s[|s| - |r|..]
    ensures StartsSolid(r)
    ensures AllSpace(s[..|s| - |r|])
  {
    if s != [] && IsSpace(s[0]) then
      var r := DropSpaces(s[1..]);
      assert s[..|s| - |r|] == [s[0]] + s[1..][..|s| - 1 - |r|];
      assert s[|s| - |r|..] == s[1..][|s| - 1 - |r|..];
      r
    else s
  }

  /** The string without its trailing whitespace run. */
  function DropTrailingSpaces(s: string): (r: string)
    ensures |r| <= |s| && r == s[..|r|]
    ensures EndsSolid(r)
    ensures AllSpace(s[|r|..])
  {
    if s != [] && IsSpace(s[|s| - 1]) then
      var r := DropTrailingSpaces(s[..|s| - 1]);
      assert s[|r|..] == s[..|s| - 1][|r|..] + [s[|s| - 1]];
      r
    else s
  }

  /** `s.replace(/\s+/g, "-")`: scanning left to right, a whitespace character starts a
      run, the whole run is consumed, and one '-' is emitted in its place. */
  function HyphenateSpaces(s: string): (r: string)
    ensures |r| <= |s|
    ensures NoSpace(r)
    ensures forall c :: c in r ==> c == '-' || c in s
    decreases |s|
  {
    if s == [] then []
    else if IsSpace(s[0]) then
      var rest := DropSpaces(s[1..]);
      SuffixElements(s, |s| - |rest|);
      "-" + HyphenateSpaces(rest)
    else
      [s[0]] + HyphenateSpaces(s[1..])
  }

  lemma SuffixElements(s: string, k: nat)
    requires k <= |s|
    ensures forall c :: c in s[k..] ==> c in s
  {
    forall c | c in s[k..] ensures c in s {
      var i :| 0 <= i < |s| - k && s[k..][i] == c;
      assert s[k + i] == c;
    }
  }

  /** A string without whitespace passes through unchanged. */
  lemma {:induction false} HyphenateNoSpace(s: string)
    requires NoSpace(s)
    ensures HyphenateSpaces(s) == s
  {
    if s != [] {
      HyphenateNoSpace(s[1..]);
    }
  }

  /** Dropping the leading run of a whitespace string that is followed by t. */
  lemma {:induction false} DropSpacesOfRun(w: string, t: string)
    requires AllSpace(w)
    ensures DropSpaces(w + t) == DropSpaces(t)
  {
    if w == [] {
      assert w + t == t;
    } else {
      assert (w + t)[0] == w[0] && IsSpace(w[0]);
      assert (w + t)[1..] == w[1..] + t;
      assert DropSpaces(w + t) == DropSpaces(w[1..] + t);
      DropSpacesOfRun(w[1..], t);
    }
  }

  /** A leading whitespace run, followed by a solid character or nothing, becomes one '-'. */
  lemma HyphenateLeadingRun(w: string, b: string)
    requires w != [] && AllSpace(w) && StartsSolid(b)
    ensures HyphenateSpaces(w + b) == "-" + HyphenateSpaces(b)
  {
    assert (w + b)[0] == w[0];
    assert (w + b)[1..] == w[1..] + b;
    DropSpacesOfRun(w[1..], b);
  }

  lemma Regroup(x: string, y: string, z: string, u: string)
    ensures x + (y + z + u) == x + y + z + u
    ensures (x + y) + z + u == x + (y + z + u)
    ensures y == [] ==> x + z + u == x + (z + u)
  {
  }

  /** Each maximal whitespace run becomes exactly one '-', and the text on either side
      of it is transformed independently. */
  lemma {:induction false} HyphenateMaximalRun(a: string, w: string, b: string)
    requires EndsSolid(a) && StartsSolid(b)
    requires w != [] && AllSpace(w)
    ensures HyphenateSpaces(a + w + b) == HyphenateSpaces(a) + "-" + HyphenateSpaces(b)
    decreases |a|, 1
  {
    if a == [] {
      assert a + w + b == w + b;
      HyphenateLeadingRun(w, b);
    } else if IsSpace(a[0]) {
      MaximalRunAfterSpace(a, w, b);
    } else {
      MaximalRunAfterSolid(a, w, b);
    }
  }

  /** The case of HyphenateMaximalRun where a starts with a run of its own; that run
      ends before the solid last character of a. */
  lemma {:induction false} MaximalRunAfterSpace(a: string, w: string, b: string)
    requires EndsSolid(a) && StartsSolid(b)
    requires w != [] && AllSpace(w)
    requires a != [] && IsSpace(a[0])
    ensures HyphenateSpaces(a + w + b) == HyphenateSpaces(a) + "-" + HyphenateSpaces(b)
    decreases |a|, 0
  {
    var a' := DropSpaces(a);
    var s0 := a[..|a| - |a'|];
    assert a == s0 + a';
    assert a' != [];
    assert a'[|a'| - 1] == a[|a| - 1];
    HyphenateMaximalRun(a', w, b);
    HyphenateLeadingRun(s0, a');
    Regroup(s0, a', w, b);
    assert (a' + w + b)[0] == a'[0];
    HyphenateLeadingRun(s0, a' + w + b);
    Regroup("-", HyphenateSpaces(a'), "-", HyphenateSpaces(b));
  }

  /** The case of HyphenateMaximalRun where a starts with a solid character. */
  lemma {:induction false} MaximalRunAfterSolid(a: string, w: string, b: string)
    requires EndsSolid(a) && StartsSolid(b)
    requires w != [] && AllSpace(w)
    requires a != [] && !IsSpace(a[0])
    ensures HyphenateSpaces(a + w + b) == HyphenateSpaces(a) + "-" + HyphenateSpaces(b)
    decreases |a|, 0
  {
    var x := HyphenateSpaces(a[1..]);
    var y := HyphenateSpaces(b);
    assert EndsSolid(a[1..]) by {
      if a[1..] != [] { assert a[1..][|a| - 2] == a[|a| - 1]; }
    }
    HyphenateSolidHead(a, w + b);
    Regroup(a[1..], [], w, b);
    Regroup(a, [], w, b);
    HyphenateMaximalRun(a[1..], w, b);
    HyphenateSolidHead(a, []);
    assert a + [] == a && a[1..] + [] == a[1..];
    Regroup([a[0]], x, "-", y);
  }

  /** A solid first character is copied and the rest is transformed on its own. */
  lemma HyphenateSolidHead(a: string, t: string)
    requires a != [] && !IsSpace(a[0])
    ensures HyphenateSpaces(a + t) == [a[0]] + HyphenateSpaces(a[1..] + t)
  {
    assert (a + t)[0] == a[0];
    assert (a + t)[1..] == a[1..] + t;
  }

  /** Strings that differ only in the length of one whitespace run are hyphenated alike. */
  lemma HyphenateRunLength(a: string, w1: string, w2: string, b: string)
    requires w1 != [] && AllSpace(w1)
    requires w2 != [] && AllSpace(w2)
    ensures HyphenateSpaces(a + w1 + b) == HyphenateSpaces(a + w2 + b)
  {
    var a0 := DropTrailingSpaces(a);
    var b0 := DropSpaces(b);
    var ta := a[|a0|..];
    var lb := b[..|b| - |b0|];
    assert a == a0 + ta && b == lb + b0;
    RunAround(a0, ta, w1, lb, b0);
    RunAround(a0, ta, w2, lb, b0);
  }

  lemma RunAround(a0: string, ta: string, w: string, lb: string, b0: string)
    requires EndsSolid(a0) && StartsSolid(b0)
    requires AllSpace(ta) && AllSpace(lb) && w != [] && AllSpace(w)
    ensures HyphenateSpaces((a0 + ta) + w + (lb + b0))
         == HyphenateSpaces(a0) + "-" + HyphenateSpaces(b0)
  {
    var m := ta + w + lb;
    AllSpaceConcat(ta, w, lb);
    Regroup5(a0, ta, w, lb, b0);
    HyphenateMaximalRun(a0, m, b0);
  }

  lemma AllSpaceConcat(x: string, y: string, z: string)
    requires AllSpace(x) && AllSpace(y) && AllSpace(z)
    ensures AllSpace(x + y + z)
  {
  }

  lemma Regroup5(a: string, b: string, c: string, d: string, e: string)
    ensures (a + b) + c + (d + e) == a + (b + c + d) + e
  {
  }

  /** `hay.includes(needle)`: needle is a prefix of hay or of one of its suffixes. */
  function Contains(hay: string, needle: string): bool
    decreases |hay|
  {
    needle <= hay || (hay != [] && Contains(hay[1..], needle))
  }

  /** needle occurs in hay starting at index i. */
  ghost predicate OccursAt(hay: string, needle: string, i: int)
  {
    0 <= i && i + |needle| <= |hay| && hay[i..i + |needle|] == needle
  }

  /** `includes` holds exactly when the needle occurs at some index of the haystack. */
  lemma {:induction false} ContainsIff(hay: string, needle: string)
    ensures Contains(hay, needle) <==> exists i :: OccursAt(hay, needle, i)
    decreases |hay|
  {
    if needle <= hay {
      assert OccursAt(hay, needle, 0);
    } else if hay == [] {
      forall i | OccursAt(hay, needle, i) ensures false {
      }
    } else {
      ContainsIff(hay[1..], needle);
      if j :| OccursAt(hay[1..], needle, j) {
        assert hay[1..][j..j + |needle|] == hay[j + 1..j + 1 + |needle|];
        assert OccursAt(hay, needle, j + 1);
      }
      forall i | OccursAt(hay, needle, i) ensures OccursAt(hay[1..], needle, i - 1) {
        if i == 0 {
          assert false;
        }
        assert hay[1..][i - 1..i - 1 + |needle|] == hay[i..i + |needle|];
      }
    }
  }
}
