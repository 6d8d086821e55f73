/**
 * The comparison keys get_single_document builds from a certificate type and
 * an identifier number: the type is stripped and lower-cased, the identifier
 * loses every ASCII space and is then stripped.  A missing or null value
 * becomes the empty string first.
 */
module Normalize {
  import opened Wrappers

  /** The characters Python's str.isspace() accepts, which str.strip() removes. */
  predicate IsSpace(c: char) {
    || c == ' '
    || '\t' <= c <= '\r'
    || '\U{1c}' <= c <= '\U{1f}'
    || c == '\U{85}' || c == '\U{a0}' || c == '\U{1680}'
    || '\U{2000}' <= c <= '\U{200a}'
    || c == '\U{2028}' || c == '\U{2029}' || c == '\U{202f}' || c == '\U{205f}' || c == '\U{3000}'
  }

  /** Every character of `s` from offset `lo` up to `hi` is whitespace. */
  predicate SpaceBetween(s: string, lo: int, hi: int)
    requires 0 <= lo && hi <= |s|
  {
    forall k :: lo <= k < hi ==> IsSpace(s[k])
  }

  predicate AllSpace(s: string) {
    SpaceBetween(s, 0, |s|)
  }

  /** Neither end of `s` is a whitespace character. */
  predicate Bare(s: string) {
    s == [] || (!IsSpace(s[0]) && !IsSpace(s[|s| - 1]))
  }

  /** `r` is what is left of `s` once the whitespace before offset `i` and
      after offset `i + |r|` is cut off, and `r` has no whitespace at its ends. */
  predicate IsStripAt(s: string, r: string, i: nat) {
    && i + |r| <= |s|
    && s[i..i + |r|] == r
    && SpaceBetween(s, 0, i)
    && SpaceBetween(s, i + |r|, |s|)
    && Bare(r)
  }

  /** `str(x or "")`: a missing or null value reads as the empty string. */
  function Text(field: Option<string>): string {
    match field
    case None => ""
    case Some(s) => s
  }

  /** Leading whitespace removed (the left half of str.strip); see TrimStartSpec. */
  function TrimStart(s: string): (r: string)
    ensures |r| <= |s|
  {
    if s != [] && IsSpace(s[0]) then TrimStart(s[1..]) else s
  }

  /** Trailing whitespace removed (the right half of str.strip); see TrimEndSpec. */
  function TrimEnd(s: string): (r: string)
    ensures |r| <= |s|
  {
    if s != [] && IsSpace(s[|s| - 1]) then TrimEnd(s[..|s| - 1]) else s
  }

  /** Python's str.lower() on one character, for the ASCII letters. */
  function LowerChar(c: char): (d: char)
    ensures IsSpace(d) == IsSpace(c)
    ensures !('A' <= d <= 'Z')
    ensures 'A' <= c <= 'Z' ==> d as int == c as int + 32
    ensures !('A' <= c <= 'Z') ==> d == c
  {
    if 'A' <= c <= 'Z' then (c as int + 32) as char else c
  }

  /** Python's str.lower(), for the ASCII letters; see LowerSpec. */
  function Lower(s: string): (r: string)
    ensures |r| == |s|
  {
    if s == [] then [] else [LowerChar(s[0])] + Lower(s[1..])
  }

  /** `s.replace(" ", "")`; see RemoveSpacesSpec. */
  function RemoveSpaces(s: string): (r: string)
    ensures |r| <= |s|
  {
    if s == [] then []
    else if s[0] == ' ' then RemoveSpaces(s[1..])
    else [s[0]] + RemoveSpaces(s[1..])
  }

  /** TrimStart drops the longest all-whitespace prefix and nothing else. */
  lemma {:induction false} TrimStartSpec(s: string)
    ensures TrimStart(s) == s[|s| - |TrimStart(s)|..]
    ensures TrimStart(s) == [] || !IsSpace(TrimStart(s)[0])
    ensures SpaceBetween(s, 0, |s| - |TrimStart(s)|)
  {
    if s != [] && IsSpace(s[0]) {
      TrimStartSpec(s[1..]);
      var t := TrimStart(s);
      assert t == TrimStart(s[1..]);
      forall k | 0 <= k < |s| - |t|
        ensures IsSpace(s[k])
      {
        if k > 0 {
          assert s[k] == s[1..][k - 1];
        }
      }
    }
  }

  /** TrimEnd drops the longest all-whitespace suffix and nothing else. */
  lemma {:induction false} TrimEndSpec(s: string)
    ensures TrimEnd(s) == s[..|TrimEnd(s)|]
    ensures TrimEnd(s) == [] || !IsSpace(TrimEnd(s)[|TrimEnd(s)| - 1])
    ensures SpaceBetween(s, |TrimEnd(s)|, |s|)
  {
    if s != [] && IsSpace(s[|s| - 1]) {
      var u := s[..|s| - 1];
      TrimEndSpec(u);
      var t := TrimEnd(s);
      assert t == TrimEnd(u);
      assert t == s[..|t|];
      forall k | |t| <= k < |s|
        ensures IsSpace(s[k])
      {
        if k < |s| - 1 {
          assert s[k] == u[k];
        }
      }
    }
  }

  /** Lower-casing works character by character. */
  lemma {:induction false} LowerSpec(s: string)
    ensures forall k :: 0 <= k < |s| ==> Lower(s)[k] == LowerChar(s[k])
  {
    if s != [] {
      LowerSpec(s[1..]);
      forall k | 0 < k < |s|
        ensures Lower(s)[k] == LowerChar(s[k])
      {
        assert s[k] == s[1..][k - 1];
      }
    }
  }

  /** RemoveSpaces leaves no space behind and leaves a space-free string alone. */
  lemma {:induction false} RemoveSpacesSpec(s: string)
    ensures ' ' !in RemoveSpaces(s)
    ensures ' ' !in s ==> RemoveSpaces(s) == s
  {
    if s != [] {
      RemoveSpacesSpec(s[1..]);
      if ' ' !in s {
        assert ' ' !in s[1..] by {
          forall k | 0 <= k < |s| - 1
            ensures s[1..][k] != ' '
          {
            assert s[1..][k] == s[k + 1];
          }
        }
        assert s == [s[0]] + s[1..];
      }
    }
  }

  /** Python's str.strip() with no argument. */
  function Strip(s: string): (r: string)
    ensures |r| <= |s|
    ensures Bare(r)
  {
    TrimStartSpec(s);
    TrimEndSpec(TrimStart(s));
    TrimEnd(TrimStart(s))
  }

  /** `str(cert_type or "").strip().lower()`: the key a certificate type is
      compared under; see NormTypeShape, NormTypeIdempotent and
      NormTypeIgnoresCaseAndPadding. */
  function NormType(s: string): (r: string)
    ensures |r| <= |s|
  {
    Lower(Strip(s))
  }

  /** `str(identifier or "").replace(" ", "").strip()`: the key an identifier
      is compared under; see NormIdentShape, NormIdentIdempotent and
      NormIdentIgnoresSpace. */
  function NormIdent(s: string): (r: string)
    ensures |r| <= |s|
  {
    Strip(RemoveSpaces(s))
  }

  /** A type key has no whitespace at its ends and no upper-case ASCII letter. */
  lemma NormTypeShape(s: string)
    ensures Bare(NormType(s))
    ensures forall k :: 0 <= k < |NormType(s)| ==> !('A' <= NormType(s)[k] <= 'Z')
  {
    LowerSpec(Strip(s));
  }

  /** An identifier key has no space at all and no whitespace at its ends. */
  lemma NormIdentShape(s: string)
    ensures ' ' !in NormIdent(s)
    ensures Bare(NormIdent(s))
  {
    var x := RemoveSpaces(s);
    RemoveSpacesSpec(s);
    StripFound(x);
    var r := Strip(x);
    var i := |x| - |TrimStart(x)|;
    forall k | 0 <= k < |r|
      ensures r[k] != ' '
    {
      assert r[k] == x[i..i + |r|][k] == x[i + k];
    }
  }

  // ---------------------------------------------------------------------
  // Strip: where it cuts, and the fact that that cut is the only one.
  // ---------------------------------------------------------------------

  /** TrimStart cuts exactly at the first non-whitespace character. */
  lemma TrimStartAt(s: string, i: nat)
    requires i <= |s| && SpaceBetween(s, 0, i)
    requires i == |s| || !IsSpace(s[i])
    ensures TrimStart(s) == s[i..]
  {
    TrimStartSpec(s);
    var t := TrimStart(s);
    assert |s| - |t| == i;
  }

  /** TrimEnd cuts exactly after the last non-whitespace character. */
  lemma TrimEndAt(s: string, j: nat)
    requires j <= |s| && SpaceBetween(s, j, |s|)
    requires j == 0 || !IsSpace(s[j - 1])
    ensures TrimEnd(s) == s[..j]
  {
    TrimEndSpec(s);
    var t := TrimEnd(s);
    assert |t| == j;
  }

  /** Strip(s) is the infix of `s` that starts where TrimStart cut. */
  lemma StripFound(s: string)
    ensures IsStripAt(s, Strip(s), |s| - |TrimStart(s)|)
  {
    TrimStartSpec(s);
    var t := TrimStart(s);
    TrimEndSpec(t);
    var i := |s| - |t|;
    var r := Strip(s);
    assert t[..|r|] == s[i..i + |r|];
    forall k | i + |r| <= k < |s|
      ensures IsSpace(s[k])
    {
      assert s[k] == t[k - i];
    }
  }

  /** Any cut that leaves a bare infix between two runs of whitespace is Strip's. */
  lemma StripUnique(s: string, r: string, i: nat)
    requires IsStripAt(s, r, i)
    ensures Strip(s) == r
  {
    if r == [] {
      TrimStartAt(s, |s|);
      assert TrimEnd([]) == [];
    } else {
      assert s[i] == r[0];
      TrimStartAt(s, i);
      var u := s[i..];
      forall k | |r| <= k < |u|
        ensures IsSpace(u[k])
      {
        assert u[k] == s[i + k];
      }
      assert u[|r| - 1] == r[|r| - 1];
      TrimEndAt(u, |r|);
      assert u[..|r|] == r;
    }
  }

  /** Stripping a string with no whitespace at its ends leaves it alone. */
  lemma StripBare(s: string)
    requires Bare(s)
    ensures Strip(s) == s
  {
    assert s[0..|s|] == s;
    StripUnique(s, s, 0);
  }

  /** Whitespace added around a string does not change what Strip returns. */
  lemma StripPadded(p: string, s: string, q: string)
    requires AllSpace(p) && AllSpace(q)
    ensures Strip(p + s + q) == Strip(s)
  {
    var r := Strip(s);
    var i := |s| - |TrimStart(s)|;
    StripFound(s);
    var w := p + s + q;
    assert w[|p| + i..|p| + i + |r|] == s[i..i + |r|];
    forall k | 0 <= k < |p| + i
      ensures IsSpace(w[k])
    {
      if k < |p| {
        assert w[k] == p[k];
      } else {
        assert w[k] == s[k - |p|];
      }
    }
    forall k | |p| + i + |r| <= k < |w|
      ensures IsSpace(w[k])
    {
      if k < |p| + |s| {
        assert w[k] == s[k - |p|];
      } else {
        assert w[k] == q[k - |p| - |s|];
      }
    }
    StripUnique(w, r, |p| + i);
  }

  // ---------------------------------------------------------------------
  // Lower: it keeps whitespace where it was, so it commutes with Strip.
  // ---------------------------------------------------------------------

  /** Lower-casing twice is lower-casing once. */
  lemma LowerIdempotent(s: string)
    ensures Lower(Lower(s)) == Lower(s)
  {
    LowerSpec(s);
    LowerSpec(Lower(s));
  }

  /** Lower-casing a slice is slicing the lower-cased string. */
  lemma LowerSlice(s: string, i: nat, j: nat)
    requires i <= j <= |s|
    ensures Lower(s)[i..j] == Lower(s[i..j])
  {
    LowerSpec(s);
    LowerSpec(s[i..j]);
    var l, m := Lower(s)[i..j], Lower(s[i..j]);
    forall k | 0 <= k < j - i
      ensures l[k] == m[k]
    {
      assert s[i..j][k] == s[i + k];
    }
  }

  /** Lower-casing keeps every cut Strip could make. */
  lemma LowerStripAt(s: string, r: string, i: nat)
    requires IsStripAt(s, r, i)
    ensures IsStripAt(Lower(s), Lower(r), i)
  {
    LowerSpec(s);
    LowerSpec(r);
    var l := Lower(s);
    LowerSlice(s, i, i + |r|);
    assert SpaceBetween(l, 0, i);
    assert SpaceBetween(l, i + |r|, |l|);
  }

  /** Lower-casing and then stripping is stripping and then lower-casing. */
  lemma LowerStrip(s: string)
    ensures Strip(Lower(s)) == Lower(Strip(s))
  {
    var i := |s| - |TrimStart(s)|;
    StripFound(s);
    LowerStripAt(s, Strip(s), i);
    StripUnique(Lower(s), Lower(Strip(s)), i);
  }

  // ---------------------------------------------------------------------
  // What the two comparison keys ignore.
  // ---------------------------------------------------------------------

  /** The type key is stable: normalising it again changes nothing. */
  lemma NormTypeIdempotent(s: string)
    ensures NormType(NormType(s)) == NormType(s)
  {
    var r := Strip(s);
    NormTypeShape(s);
    StripBare(Lower(r));
    LowerIdempotent(r);
  }

  /** The type key ignores surrounding whitespace and ASCII letter case. */
  lemma NormTypeIgnoresCaseAndPadding(p: string, s: string, q: string)
    requires AllSpace(p) && AllSpace(q)
    ensures NormType(p + s + q) == NormType(s)
    ensures NormType(Lower(s)) == NormType(s)
  {
    StripPadded(p, s, q);
    LowerStrip(s);
    LowerIdempotent(Strip(s));
  }

  /** Removing spaces distributes over concatenation. */
  lemma {:induction false} RemoveSpacesAppend(a: string, b: string)
    ensures RemoveSpaces(a + b) == RemoveSpaces(a) + RemoveSpaces(b)
  {
    if a == [] {
      assert a + b == b;
    } else {
      assert (a + b)[0] == a[0];
      assert (a + b)[1..] == a[1..] + b;
      RemoveSpacesAppend(a[1..], b);
    }
  }

  /** The identifier key is stable: normalising it again changes nothing. */
  lemma NormIdentIdempotent(s: string)
    ensures NormIdent(NormIdent(s)) == NormIdent(s)
  {
    var r := NormIdent(s);
    NormIdentShape(s);
    RemoveSpacesSpec(r);
    StripBare(r);
  }

  /** The identifier key ignores every ASCII space, wherever it stands. */
  lemma NormIdentIgnoresSpace(a: string, b: string)
    ensures NormIdent(a + " " + b) == NormIdent(a + b)
  {
    RemoveSpacesAppend(a + " ", b);
    RemoveSpacesAppend(a, " ");
    RemoveSpacesAppend(a, b);
    assert RemoveSpaces(" ") == RemoveSpaces(" "[1..]) == [];
    assert RemoveSpaces(a + " " + b) == RemoveSpaces(a + b);
  }

  /** The example in the handler's own comment: "1234 5678" keys as "12345678". */
  lemma NormIdentExample()
    ensures NormIdent("1234 5678") == "12345678"
    ensures NormIdent("12345678") == "12345678"
  {
    var key := "12345678";
    RemoveSpacesExample();
    RemoveSpacesSpec(key);
    assert !IsSpace(key[0]) && !IsSpace(key[7]);
    StripBare(key);
  }

  lemma RemoveSpacesExample()
    ensures RemoveSpaces("1234 5678") == "12345678"
  {
    assert "1234 5678" == "1234" + " " + "5678";
    RemoveSpacesAppend("1234" + " ", "5678");
    RemoveSpacesAppend("1234", " ");
    RemoveSpacesSpec("1234");
    RemoveSpacesSpec("5678");
    assert RemoveSpaces(" ") == RemoveSpaces(" "[1..]) == [];
  }

  lemma LowerPan()
    ensures Lower("PAN") == "pan" && Lower("Pan") == "pan" && Lower("pan") == "pan"
  {
  }

  /** "PAN", " Pan " and "pan" all key as "pan". */
  lemma NormTypeExample()
    ensures NormType("PAN") == "pan"
    ensures NormType(" Pan ") == "pan"
    ensures NormType("pan") == "pan"
  {
    assert Bare("pan");
    StripBare("pan");
    assert Bare("PAN");
    StripBare("PAN");
    LowerPan();
    assert " " + "Pan" + " " == " Pan ";
    StripPadded(" ", "Pan", " ");
    assert Bare("Pan");
    StripBare("Pan");
  }

  /** Only the ASCII space goes: a tab inside an identifier is kept. */
  lemma NormIdentKeepsTab()
    ensures NormIdent("1234\t5678") == "1234\t5678"
  {
    var s := "1234\t5678";
    assert forall k :: 0 <= k < |s| ==> s[k] != ' ';
    RemoveSpacesSpec(s);
    assert !IsSpace(s[0]) && !IsSpace(s[|s| - 1]);
    StripBare(s);
  }
}
