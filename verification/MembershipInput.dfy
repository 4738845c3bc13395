/**
 What is made of typed names and emails: surrounding whitespace goes, letters become small, and a
 sign-up's email must look like one.
 */
module MembershipInput {
  import opened Identities

  /** Whitespace, of ASCII and beyond: what stripping removes and the sign-up pattern excludes. */
  predicate Blank(c: char) {
    || '\t' <= c <= '\r' || '\U{1C}' <= c <= ' ' || c == '\U{85}' || c == '\U{A0}' || c == '\U{1680}'
    || '\U{2000}' <= c <= '\U{200A}' || '\U{2028}' <= c <= '\U{2029}' || c == '\U{202F}' || c == '\U{205F}'
    || c == '\U{3000}'
  }

  /** Letters of ASCII; the others are left alone. */
  function Small(c: char): char {
    if 'A' <= c <= 'Z' then c - 'A' + 'a' else c
  }

  function StripLeft(s: string): string {
    if s != [] && Blank(s[0]) then StripLeft(s[1..]) else s
  }

  function StripRight(s: string): string {
    if s != [] && Blank(s[|s| - 1]) then StripRight(s[..|s| - 1]) else s
  }

  function Strip(s: string): string {
    StripRight(StripLeft(s))
  }

  function Lower(s: string): (r: string)
    ensures |r| == |s| && forall k :: 0 <= k < |s| ==> r[k] == Small(s[k])
  {
    seq(|s|, k requires 0 <= k < |s| => Small(s[k]))
  }

  /** The form in which emails are stored. */
  function Normalise(s: string): Email {
    Lower(Strip(s))
  }

  /** No whitespace at either end. */
  predicate Trimmed(s: string) {
    s == [] || (!Blank(s[0]) && !Blank(s[|s| - 1]))
  }

  predicate Normal(s: string) {
    Trimmed(s) && forall c :: c in s ==> Small(c) == c
  }

  lemma {:induction false} StripLeftCuts(s: string) returns (i: nat)
    ensures i <= |s| && StripLeft(s) == s[i..] && (i < |s| ==> !Blank(s[i]))
    ensures forall k :: 0 <= k < i ==> Blank(s[k])
  {
    if s != [] && Blank(s[0]) {
      var rest := StripLeftCuts(s[1..]);
      i := rest + 1;
      assert s[1..][rest..] == s[i..];
      assert forall k :: 0 < k < i ==> s[k] == s[1..][k - 1];
    } else {
      i := 0;
    }
  }

  lemma {:induction false} StripRightCuts(s: string) returns (j: nat)
    ensures j <= |s| && StripRight(s) == s[..j] && (j > 0 ==> !Blank(s[j - 1]))
    ensures forall k :: j <= k < |s| ==> Blank(s[k])
  {
    if s != [] && Blank(s[|s| - 1]) {
      j := StripRightCuts(s[..|s| - 1]);
      assert s[..|s| - 1][..j] == s[..j];
    } else {
      j := |s|;
      assert s[..j] == s;
    }
  }

  /** Stripping cuts whitespace off both ends and nothing else. */
  lemma StripCuts(s: string) returns (i: nat, j: nat)
    ensures Trimmed(Strip(s))
    ensures i <= j <= |s| && Strip(s) == s[i..j] && forall k :: 0 <= k < i || j <= k < |s| ==> Blank(s[k])
  {
    i := StripLeftCuts(s);
    var n := StripRightCuts(s[i..]);
    j := i + n;
    assert s[i..][..n] == s[i..j];
    assert forall k :: j <= k < |s| ==> s[k] == s[i..][k - i];
  }

  lemma TrimmedStays(s: string)
    requires Trimmed(s)
    ensures Strip(s) == s
  {
  }

  /** Stored emails are normal, and normal emails are stored as they are. */
  lemma NormaliseIsNormal(s: string)
    ensures Normal(Normalise(s))
    ensures Normal(s) <==> Normalise(s) == s
  {
    var i, j := StripCuts(s);
    if Normal(s) {
      TrimmedStays(s);
      assert forall k :: 0 <= k < |s| ==> s[k] in s;
    }
  }

  /** What is stored of a typed email: all of it between the outer whitespace, capitals made small and nothing else. */
  lemma StoredForm(s: string) returns (i: nat, j: nat)
    ensures i <= j <= |s| && |Normalise(s)| == j - i
    ensures forall k :: 0 <= k < i || j <= k < |s| ==> Blank(s[k])
    ensures i < j ==> !Blank(s[i]) && !Blank(s[j - 1])
    ensures forall k :: 0 <= k < j - i ==>
              Normalise(s)[k] as int == s[i + k] as int + (if 'A' <= s[i + k] <= 'Z' then 32 else 0)
  {
    i, j := StripCuts(s);
  }

  /* ---- The sign-up check ---- */

  predicate Plain(c: char) {
    c != '@' && !Blank(c)
  }

  /** One `@` with something before it, and after it a dot with something on both sides, and no whitespace. */
  predicate Address(s: string) {
    exists i, j | 0 < i < |s| && i + 1 < j < |s| - 1 ::
      s[i] == '@' && s[j] == '.' && forall k | 0 <= k < |s| :: k == i || Plain(s[k])
  }

  /** The pattern the sign-up applies; its end anchor lets one final line feed pass. */
  predicate LooksLikeEmail(s: string) {
    Address(s) || (s != [] && s[|s| - 1] == '\n' && Address(s[..|s| - 1]))
  }

  lemma AddressTrimmed(s: string)
    requires Address(s)
    ensures Trimmed(s) && s != []
  {
  }

  lemma LowerKeepsAddress(s: string)
    requires Address(s)
    ensures Address(Lower(s))
  {
    var i, j :| 0 < i < |s| && i + 1 < j < |s| - 1 && s[i] == '@' && s[j] == '.'
        && forall k | 0 <= k < |s| :: k == i || Plain(s[k]);
    var r := Lower(s);
    assert r[i] == '@' && r[j] == '.';
  }

  /** What passes is stored as a proper address, line feed or not. */
  lemma AcceptedIsStoredAsAddress(s: string)
    requires LooksLikeEmail(s)
    ensures Address(Normalise(s))
  {
    if Address(s) {
      AddressTrimmed(s);
      TrimmedStays(s);
      LowerKeepsAddress(s);
    } else {
      var front := s[..|s| - 1];
      AddressTrimmed(front);
      assert s[0] == front[0];
      assert StripLeft(s) == s;
      assert StripRight(s) == StripRight(front) == front;
      LowerKeepsAddress(front);
    }
  }
}
