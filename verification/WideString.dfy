/** Wide strings: sequences of UTF-16 code units. */
module WideStrings {

  type Unit = u: int | 0 <= u < 0x1_0000
  type WString = seq<Unit>

  const NUL: Unit := 0

  /** The wide string of an ASCII literal. */
  function Wide(s: string): WString {
    seq(|s|, i requires 0 <= i < |s| => if s[i] as int < 0x80 then s[i] as int else 0)
  }

  /** Each unit is the code of its character. */
  lemma WideIs(s: string, i: nat)
    requires i < |s| && s[i] as int < 0x80
    ensures |Wide(s)| == |s| && Wide(s)[i] == s[i] as int
  {
  }

  /** c_str() up to its terminator: what lies before the first NUL. */
  function CStr(s: WString): WString {
    if s == [] || s[0] == NUL then [] else [s[0]] + CStr(s[1..])
  }

  /** What wcsncpy(dst, s, |s|) writes: the units before the first NUL, then NULs. */
  function NulPadded(s: WString): WString {
    if s == [] then []
    else if s[0] == NUL then seq(|s|, _ => NUL)
    else [s[0]] + NulPadded(s[1..])
  }

  /** No unit other than NUL follows a NUL. */
  predicate NothingAfterNul(s: WString) {
    forall i, j :: 0 <= i < j < |s| && s[i] == NUL ==> s[j] == NUL
  }

  lemma {:induction false} NulPaddedLength(s: WString)
    ensures |NulPadded(s)| == |s|
  {
    if s != [] { NulPaddedLength(s[1..]); }
  }

  /** wcsncpy changes nothing exactly when nothing follows a NUL. */
  lemma {:induction false} NulPaddedIff(s: WString)
    ensures NulPadded(s) == s <==> NothingAfterNul(s)
  {
    if s == [] {
    } else if s[0] == NUL {
      if NothingAfterNul(s) {
        assert NulPadded(s) == s;
      } else {
        var i, j :| 0 <= i < j < |s| && s[i] == NUL && s[j] != NUL;
        assert NulPadded(s)[j] == NUL;
      }
    } else {
      NulPaddedIff(s[1..]);
      assert s == [s[0]] + s[1..];
      if NothingAfterNul(s[1..]) {
        forall i, j | 0 <= i < j < |s| && s[i] == NUL ensures s[j] == NUL {
          assert s[1..][i - 1] == NUL ==> s[1..][j - 1] == NUL;
        }
      } else {
        var i, j :| 0 <= i < j < |s[1..]| && s[1..][i] == NUL && s[1..][j] != NUL;
        assert s[i + 1] == NUL && s[j + 1] != NUL;
      }
    }
  }

  /** Unit i of what wcsncpy writes. */
  lemma {:induction false} NulPaddedAt(s: WString, i: nat)
    requires i < |s|
    ensures |NulPadded(s)| == |s|
    ensures NulPadded(s)[i] == if NUL in s[..i] then NUL else s[i]
  {
    NulPaddedLength(s);
    if i > 0 {
      if s[0] == NUL {
        assert s[..i][0] == NUL;
      } else {
        NulPaddedAt(s[1..], i - 1);
        assert s[..i] == [s[0]] + s[1..][..i - 1];
      }
    }
  }

  /** The padding leaves what lies before the first NUL. */
  lemma {:induction false} CStrOfPadded(s: WString)
    ensures CStr(NulPadded(s)) == CStr(s)
  {
    if s != [] && s[0] != NUL { CStrOfPadded(s[1..]); }
  }

  lemma {:induction false} NulPaddedTail(s: WString, n: nat)
    requires n <= |s| && NUL !in s[..n]
    ensures |NulPadded(s)| == |s| && NulPadded(s)[..n] == s[..n] && NulPadded(s)[n..] == NulPadded(s[n..])
  {
    NulPaddedLength(s);
    if n > 0 {
      assert s[..n][0] != NUL;
      assert s[..n] == [s[0]] + s[1..][..n - 1];
      NulPaddedTail(s[1..], n - 1);
      assert s[n..] == s[1..][n - 1..];
    }
  }

  lemma {:induction false} CStrAppend(a: WString, s: WString, t: WString)
    requires CStr(s) == CStr(t)
    ensures CStr(a + s) == CStr(a + t)
  {
    if a == [] {
      assert a + s == s && a + t == t;
    } else if a[0] != NUL {
      assert (a + s)[1..] == a[1..] + s && (a + t)[1..] == a[1..] + t;
      CStrAppend(a[1..], s, t);
    }
  }

  /** A prefix without a NUL is cut off before or after the padding alike. */
  lemma CutAndPad(a: WString, s: WString, n: nat)
    requires n <= |s| && NUL !in s[..n]
    ensures |NulPadded(s)| == |s| && CStr(a + NulPadded(s)[n..]) == CStr(a + s[n..])
  {
    NulPaddedTail(s, n);
    CStrOfPadded(s[n..]);
    CStrAppend(a, NulPadded(s[n..]), s[n..]);
  }

  /** c_str() ends right before the first NUL, or at the end of a string without one. */
  lemma {:induction false} CStrIs(s: WString)
    ensures CStr(s) <= s && NUL !in CStr(s)
    ensures |CStr(s)| < |s| ==> s[|CStr(s)|] == NUL
  {
    if s != [] && s[0] != NUL { CStrIs(s[1..]); }
  }

  lemma {:induction false} CStrOfNoNul(s: WString)
    requires NUL !in s
    ensures CStr(s) == s
  {
    if s != [] {
      assert s[0] in s && forall u :: u in s[1..] ==> u in s;
      CStrOfNoNul(s[1..]);
    }
  }
}
