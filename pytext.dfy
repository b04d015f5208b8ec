/** The Python string operations the dashboard relies on: `str.lower`,
    `str.strip`/`str.isspace`, the `in` substring test and slicing. */
module PyText {

  /** `str.isspace` for one character: the characters Python treats as
      whitespace (and removes in `str.strip()` and in `int()`). */
  predicate IsSpace(c: char)
  {
    var n := c as int;
    if n <= 0x20 then 0x09 <= n <= 0x0D || 0x1C <= n
    else if n < 0x85 then false
    else
      || n == 0x85 || n == 0xA0 || n == 0x1680 || 0x2000 <= n <= 0x200A
      || n == 0x2028 || n == 0x2029 || n == 0x202F || n == 0x205F || n == 0x3000
  }

  /** `not s.strip()`: the string is empty or all whitespace. */
  predicate IsBlank(s: string)
  {
    forall i :: 0 <= i < |s| ==> IsSpace(s[i])
  }

  /** An upper-case letter that `str.lower` maps one-to-one onto the
      letter 32 code points above it: A-Z and the Latin-1 capitals
      U+00C0..U+00DE except the multiplication sign U+00D7. */
  predicate IsUpper(c: char)
  {
    var n := c as int;
    0x41 <= n <= 0x5A || (0xC0 <= n <= 0xDE && n != 0xD7)
  }

  function LowerChar(c: char): (r: char)
    ensures IsUpper(c) ==> r as int == c as int + 32
    ensures !IsUpper(c) ==> r == c
  {
    if IsUpper(c) then (c as int + 32) as char else c
  }

  /** `str.lower`, character by character. */
  function Lower(s: string): (r: string)
    ensures |r| == |s|
    ensures forall i :: 0 <= i < |s| ==> r[i] == LowerChar(s[i])
  {
    seq(|s|, i requires 0 <= i < |s| => LowerChar(s[i]))
  }

  /** Only `c` itself and its capital lower-case to `c`. */
  lemma LowerCharInverse(c: char, x: char)
    requires LowerChar(x) == c
    ensures x == c || (IsUpper(x) && x as int == c as int - 32)
  {
  }

  lemma LowerIdempotent(s: string)
    ensures Lower(Lower(s)) == Lower(s)
  {
  }

  lemma LowerConcat(a: string, b: string)
    ensures Lower(a + b) == Lower(a) + Lower(b)
  {
  }

  /** `t` occurs in `s` starting at index `i`. */
  predicate At(s: string, t: string, i: int)
  {
    0 <= i && i + |t| <= |s| && forall j :: 0 <= j < |t| ==> s[i + j] == t[j]
  }

  /** Python's `t in s` for strings. */
  predicate Contains(s: string, t: string)
  {
    exists i | 0 <= i <= |s| - |t| :: At(s, t, i)
  }

  /** `t in s` holds exactly when some slice of `s` as long as `t` is `t`. */
  lemma ContainsIffSlice(s: string, t: string)
    ensures Contains(s, t) <==> exists i :: 0 <= i <= |s| - |t| && s[i..][..|t|] == t
  {
    if Contains(s, t) {
      var i :| 0 <= i <= |s| - |t| && At(s, t, i);
      assert s[i..][..|t|] == t;
    }
    if exists i :: 0 <= i <= |s| - |t| && s[i..][..|t|] == t {
      var i :| 0 <= i <= |s| - |t| && s[i..][..|t|] == t;
      forall j | 0 <= j < |t| ensures s[i + j] == t[j] {
        assert s[i..][..|t|][j] == s[i + j];
      }
      assert At(s, t, i);
    }
  }

  /** Any occurrence of `t` carries every prefix of `t` with it. */
  lemma ContainsPrefix(s: string, t: string, k: nat)
    requires Contains(s, t) && k <= |t|
    ensures Contains(s, t[..k])
  {
    var i :| 0 <= i <= |s| - |t| && At(s, t, i);
    assert At(s, t[..k], i);
  }

  /** `t` cannot occur in `a + b` when its first character is absent from
      `a` and one of its characters `c` is absent from `b`. With `a` empty
      this says that a string lacking one of `t`'s characters lacks `t`. */
  lemma NotContainsSplit(a: string, b: string, t: string, c: char)
    requires t != [] && t[0] !in a && c in t && c !in b
    ensures !Contains(a + b, t)
  {
    var s := a + b;
    forall i | 0 <= i <= |s| - |t| ensures !At(s, t, i) {
      if i < |a| {
        assert s[i] == a[i];
      } else {
        var j :| 0 <= j < |t| && t[j] == c;
        assert s[i + j] == b[i + j - |a|];
      }
    }
  }

  /** Python's slice `s[lo:hi]` for non-negative bounds: clamped to the
      string, and empty when the bounds cross. */
  function Slice(s: string, lo: nat, hi: nat): (r: string)
    ensures |r| <= |s|
    ensures hi <= |s| && lo <= hi ==> r == s[lo..hi]
    ensures lo >= |s| || hi <= lo ==> r == []
    ensures lo <= |s| <= hi ==> r == s[lo..]
  {
    var h := if hi <= |s| then hi else |s|;
    var l := if lo <= h then lo else h;
    s[l..h]
  }

  /** `str.strip(chars)` for a single character: drop every leading and
      every trailing occurrence of `c`. */
  function StripChar(s: string, c: char): (r: string)
    ensures |r| <= |s|
    ensures r != [] ==> r[0] != c && r[|r| - 1] != c
    decreases |s|
  {
    if s == [] then []
    else if s[0] == c then StripChar(s[1..], c)
    else if s[|s| - 1] == c then StripChar(s[..|s| - 1], c)
    else s
  }

  /** `str.strip()`: drop leading and trailing whitespace. */
  function StripSpace(s: string): (r: string)
    ensures |r| <= |s|
    ensures r != [] ==> !IsSpace(r[0]) && !IsSpace(r[|r| - 1])
    decreases |s|
  {
    if s == [] then []
    else if IsSpace(s[0]) then StripSpace(s[1..])
    else if IsSpace(s[|s| - 1]) then StripSpace(s[..|s| - 1])
    else s
  }

  /** `s[..i]` and `s[j..]` consist of `c` alone. */
  predicate Trims(s: string, c: char, i: int, j: int)
  {
    && 0 <= i <= j <= |s|
    && (forall k :: 0 <= k < i ==> s[k] == c)
    && (forall k :: j <= k < |s| ==> s[k] == c)
  }

  /** Stripping `c` removes a prefix and a suffix made only of `c`: the
      result is the piece of the input between them. */
  lemma {:induction false} StripCharSpec(s: string, c: char)
    ensures exists i, j :: Trims(s, c, i, j) && StripChar(s, c) == s[i..j]
    decreases |s|
  {
    var r := StripChar(s, c);
    if s == [] {
      assert Trims(s, c, 0, 0) && r == s[0..0];
    } else if s[0] == c {
      StripCharSpec(s[1..], c);
      var i, j :| Trims(s[1..], c, i, j) && r == s[1..][i..j];
      TrimFront(s, c, i, j);
    } else if s[|s| - 1] == c {
      StripCharSpec(s[..|s| - 1], c);
      var i, j :| Trims(s[..|s| - 1], c, i, j) && r == s[..|s| - 1][i..j];
      TrimBack(s, c, i, j);
    } else {
      assert Trims(s, c, 0, |s|) && r == s[0..|s|];
    }
  }

  lemma TrimFront(s: string, c: char, i: int, j: int)
    requires s != [] && s[0] == c && Trims(s[1..], c, i, j)
    ensures Trims(s, c, i + 1, j + 1) && s[1..][i..j] == s[i + 1..j + 1]
  {
    var t := s[1..];
    assert forall k :: 0 < k < |s| ==> s[k] == t[k - 1];
  }

  lemma TrimBack(s: string, c: char, i: int, j: int)
    requires s != [] && s[|s| - 1] == c && Trims(s[..|s| - 1], c, i, j)
    ensures Trims(s, c, i, j) && s[..|s| - 1][i..j] == s[i..j]
  {
    var t := s[..|s| - 1];
    assert forall k :: 0 <= k < |t| ==> s[k] == t[k];
  }

  /** `s[..i]` and `s[j..]` consist of whitespace alone. */
  predicate SpaceTrims(s: string, i: int, j: int)
  {
    && 0 <= i <= j <= |s|
    && (forall k :: 0 <= k < i ==> IsSpace(s[k]))
    && (forall k :: j <= k < |s| ==> IsSpace(s[k]))
  }

  /** `str.strip()` removes a prefix and a suffix made only of whitespace:
      the result is the piece of the input between them. */
  lemma {:induction false} StripSpaceSpec(s: string)
    ensures exists i, j :: SpaceTrims(s, i, j) && StripSpace(s) == s[i..j]
    decreases |s|
  {
    var r := StripSpace(s);
    if s == [] {
      assert SpaceTrims(s, 0, 0) && r == s[0..0];
    } else if IsSpace(s[0]) {
      StripSpaceSpec(s[1..]);
      var i, j :| SpaceTrims(s[1..], i, j) && r == s[1..][i..j];
      SpaceTrimFront(s, i, j);
    } else if IsSpace(s[|s| - 1]) {
      StripSpaceSpec(s[..|s| - 1]);
      var i, j :| SpaceTrims(s[..|s| - 1], i, j) && r == s[..|s| - 1][i..j];
      SpaceTrimBack(s, i, j);
    } else {
      assert SpaceTrims(s, 0, |s|) && r == s[0..|s|];
    }
  }

  lemma SpaceTrimFront(s: string, i: int, j: int)
    requires s != [] && IsSpace(s[0]) && SpaceTrims(s[1..], i, j)
    ensures SpaceTrims(s, i + 1, j + 1) && s[1..][i..j] == s[i + 1..j + 1]
  {
    var t := s[1..];
    assert forall k :: 0 < k < |s| ==> s[k] == t[k - 1];
  }

  lemma SpaceTrimBack(s: string, i: int, j: int)
    requires s != [] && IsSpace(s[|s| - 1]) && SpaceTrims(s[..|s| - 1], i, j)
    ensures SpaceTrims(s, i, j) && s[..|s| - 1][i..j] == s[i..j]
  {
    var t := s[..|s| - 1];
    assert forall k :: 0 <= k < |t| ==> s[k] == t[k];
  }

  /** `str.strip()` of a string is empty exactly when the string is blank. */
  lemma {:induction false} StripSpaceEmpty(s: string)
    ensures StripSpace(s) == [] <==> IsBlank(s)
    decreases |s|
  {
    if s == [] {
    } else if IsSpace(s[0]) {
      StripSpaceEmpty(s[1..]);
      assert IsBlank(s) <==> IsBlank(s[1..]) by {
        if IsBlank(s[1..]) {
          forall i | 0 <= i < |s| ensures IsSpace(s[i]) {
            if i > 0 { assert s[i] == s[1..][i - 1]; }
          }
        }
      }
    } else if IsSpace(s[|s| - 1]) {
      StripSpaceEmpty(s[..|s| - 1]);
      assert s[..|s| - 1][0] == s[0];
    } else {
      assert !IsSpace(s[0]);
    }
  }
}
