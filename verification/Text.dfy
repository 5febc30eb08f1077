/**
 Strings of octets and the few scanning operations the server needs.
 A `char` stands for one octet; nothing below depends on the code being under 256
 unless it says so.
 */
module Text {

  datatype Option<+T> = None | Some(value: T)

  const CRLF := "\r\n"

  /** A blank or a tab: the only white space that may stand inside a field value. */
  predicate IsStrictWhitespace(c: char) {
    c == ' ' || c == '\t'
  }

  predicate AllWhitespace(s: string) {
    forall i :: 0 <= i < |s| ==> IsStrictWhitespace(s[i])
  }

  lemma AllWhitespaceTail(s: string)
    requires AllWhitespace(s) && s != []
    ensures IsStrictWhitespace(s[0]) && AllWhitespace(s[1..])
  {
    forall i | 0 <= i < |s| - 1 ensures IsStrictWhitespace(s[1..][i]) {
      assert IsStrictWhitespace(s[i + 1]);
    }
  }

  /** The position of the first `c` in `s`, or `|s|`. */
  function Index(s: string, c: char): (i: nat)
    ensures i <= |s|
    ensures i < |s| ==> s[i] == c
  {
    if s == [] || s[0] == c then 0 else Index(s[1..], c) + 1
  }

  lemma {:induction false} IndexIsFirst(s: string, c: char)
    ensures forall k :: 0 <= k < Index(s, c) ==> s[k] != c
    ensures c !in s[..Index(s, c)]
  {
    if s != [] && s[0] != c {
      IndexIsFirst(s[1..], c);
      assert forall k :: 0 < k < Index(s, c) ==> s[k] == s[1..][k - 1];
    }
  }

  /** The number of blanks and tabs that `s` starts with. */
  function LeadingWhitespace(s: string): (i: nat)
    ensures i <= |s|
    ensures i < |s| ==> !IsStrictWhitespace(s[i])
  {
    if s == [] || !IsStrictWhitespace(s[0]) then 0 else LeadingWhitespace(s[1..]) + 1
  }

  lemma {:induction false} LeadingWhitespaceIsBlank(s: string)
    ensures AllWhitespace(s[..LeadingWhitespace(s)])
  {
    var i := LeadingWhitespace(s);
    if i > 0 {
      LeadingWhitespaceIsBlank(s[1..]);
      assert s[..i] == [s[0]] + s[1..][..i - 1];
    }
  }

  lemma {:induction false} IndexOfFirst(a: string, c: char, b: string)
    requires c !in a
    ensures var s := a + ([c] + b);
            Index(s, c) == |a| && |s| == |a| + 1 + |b| && s[..|a|] == a && s[|a| + 1..] == b
  {
    if a != [] {
      assert (a + ([c] + b))[1..] == a[1..] + ([c] + b);
      IndexOfFirst(a[1..], c, b);
    }
  }

  lemma CutAt(s: string, i: nat)
    requires i < |s|
    ensures s == s[..i] + ([s[i]] + s[i + 1..])
  {
  }

  lemma SplitAt(s: string, i: nat)
    requires i <= |s|
    ensures s == s[..i] + s[i..]
  {
  }

  lemma {:induction false} LeadingWhitespaceOf(a: string, b: string)
    requires AllWhitespace(a)
    requires b != [] && !IsStrictWhitespace(b[0])
    ensures LeadingWhitespace(a + b) == |a| && (a + b)[|a|..] == b
  {
    if a == [] {
      assert a + b == b;
    } else {
      assert (a + b)[1..] == a[1..] + b;
      LeadingWhitespaceOf(a[1..], b);
    }
  }

  lemma DropTwice(s: string, i: nat, j: nat)
    requires i + j <= |s|
    ensures s[i..][j..] == s[i + j..]
  {
  }

  lemma TakeOneMore(s: string, k: nat)
    requires k + 1 <= |s|
    ensures [s[0]] + s[1..][..k] == s[..k + 1]
  {
  }

  lemma Associates(a: string, b: string, c: string)
    ensures a + b + c == a + (b + c)
  {
  }

  lemma Neutral(a: string)
    ensures a + "" == a == "" + a
  {
  }

  /** `s` without its trailing blanks and tabs. */
  function RTrim(s: string): string {
    if s == [] || !IsStrictWhitespace(s[|s| - 1]) then s else RTrim(s[..|s| - 1])
  }

  lemma {:induction false} RTrimCutsBlanks(s: string)
    ensures RTrim(s) <= s
    ensures AllWhitespace(s[|RTrim(s)|..])
    ensures RTrim(s) != [] ==> !IsStrictWhitespace(RTrim(s)[|RTrim(s)| - 1])
  {
    if s != [] && IsStrictWhitespace(s[|s| - 1]) {
      var t := s[..|s| - 1];
      RTrimCutsBlanks(t);
      assert s[|RTrim(s)|..] == t[|RTrim(s)|..] + [s[|s| - 1]];
    }
  }

  /** Trailing white space is trimmed in place, as the source erases it from its buffer. */
  method RTrimInPlace(s: string) returns (r: string)
    ensures r == RTrim(s)
  {
    var i := |s|;
    assert s[..i] == s;
    while i > 0 && IsStrictWhitespace(s[i - 1])
      invariant 0 <= i <= |s|
      invariant RTrim(s) == RTrim(s[..i])
    {
      assert s[..i][..i - 1] == s[..i - 1];
      i := i - 1;
    }
    r := s[..i];
  }

  function Flatten(pieces: seq<string>): string {
    if pieces == [] then "" else pieces[0] + Flatten(pieces[1..])
  }
}
