/**
 What "in any letter case" means: the comparison of field names, letter by letter, and the
 length of a body found under every spelling of its name.
 */
module Caseless {
  import opened Text
  import opened Numbers
  import opened MessageHeader
  import opened FieldMaps

  /** The same character, or the same letter of the ASCII alphabet in the other case. */
  predicate SameLetter(a: char, b: char) {
    a == b || ('a' <= a <= 'z' && b as int == a as int - 32) || ('a' <= b <= 'z' && a as int == b as int - 32)
  }

  predicate SameLetters(a: string, b: string) {
    |a| == |b| && forall i :: 0 <= i < |a| ==> SameLetter(a[i], b[i])
  }

  /** Names are the same exactly if they differ in the case of letters at most. */
  lemma {:induction false} SameNameMeaning(a: string, b: string)
    ensures SameName(a, b) <==> SameLetters(a, b)
  {
    if a != [] && b != [] {
      SameNameMeaning(a[1..], b[1..]);
      assert SameLetters(a, b) <==> SameLetter(a[0], b[0]) && SameLetters(a[1..], b[1..]) by {
        assert forall i :: 0 < i < |a| ==> a[i] == a[1..][i - 1];
        assert forall i :: 0 < i < |b| ==> b[i] == b[1..][i - 1];
      }
    }
  }

  /** The code of a character with small letters taken as capital ones. */
  function Rank(c: char): int {
    if 97 <= c as int <= 122 then c as int - 32 else c as int
  }

  /** `a` stands before `b` from position `k` on, where they first differ. */
  predicate Before(a: string, b: string, k: nat) {
    k <= |a| && k < |b| && SameLetters(a[..k], b[..k]) && (k < |a| ==> Rank(a[k]) < Rank(b[k]))
  }

  /** The order of names: a proper prefix first, and else by the first difference. */
  lemma {:induction false} OrderMeaning(a: string, b: string)
    ensures StriCmp(a, b) < 0 <==> exists k :: Before(a, b, k)
  {
    if b != [] && a == [] {
      assert Before(a, b, 0);
    } else if b != [] {
      OrderMeaning(a[1..], b[1..]);
      forall k: nat | Before(a, b, k) && k > 0 ensures SameLetter(a[0], b[0]) && Before(a[1..], b[1..], k - 1) {
        BeforeTail(a, b, k);
      }
      forall k: nat | SameLetter(a[0], b[0]) && Before(a[1..], b[1..], k) ensures Before(a, b, k + 1) {
        BeforeTail(a, b, k + 1);
      }
      if Rank(a[0]) < Rank(b[0]) { assert Before(a, b, 0); }
    }
  }

  lemma BeforeTail(a: string, b: string, k: nat)
    requires a != [] && b != [] && 0 < k <= |a| && k <= |b|
    ensures Before(a, b, k) <==> SameLetter(a[0], b[0]) && Before(a[1..], b[1..], k - 1)
  {
    assert a[..k][1..] == a[1..][..k - 1] && b[..k][1..] == b[1..][..k - 1];
    SameNameMeaning(a[..k], b[..k]);
    SameNameMeaning(a[1..][..k - 1], b[1..][..k - 1]);
    SameNameMeaning([a[0]], [b[0]]);
    assert a[..k][0] == a[0] && b[..k][0] == b[0];
  }

  lemma {:induction false} FindsUnderName(fields: Fields, i: nat, name: string)
    requires i < |fields| && SameName(name, fields[i].name)
    requires forall j :: 0 <= j < i ==> !SameName(name, fields[j].name)
    ensures Lookup(fields, name) == Some(fields[i])
  {
    if i > 0 { FindsUnderName(fields[1..], i - 1, name); }
  }

  lemma {:induction false} FindsNothing(fields: Fields, name: string)
    requires forall j :: 0 <= j < |fields| ==> !SameName(name, fields[j].name)
    ensures Lookup(fields, name) == None
  {
    if fields != [] { FindsNothing(fields[1..], name); }
  }

  /**
   The length of a body: what the field says that is spelled Content-Length in any letter case,
   if that is a number below 2^64; and none at all without such a field.
   */
  lemma ContentLengthMeaning(fields: Fields)
    requires Sorted(fields)
    ensures forall i :: 0 <= i < |fields| && SameLetters("Content-Length", fields[i].name) ==>
              ContentLength(fields) == ToNumber(fields[i].value, 0x1_0000_0000_0000_0000)
    ensures (forall i :: 0 <= i < |fields| ==> !SameLetters("Content-Length", fields[i].name)) ==> ContentLength(fields) == Some(0)
  {
    hide SameName, SameLetters, Sorted;
    forall name: string ensures SameName("Content-Length", name) <==> SameLetters("Content-Length", name) {
      SameNameMeaning("Content-Length", name);
    }
    if i :| 0 <= i < |fields| && SameLetters("Content-Length", fields[i].name) {
      forall j | 0 <= j < |fields| && j != i ensures !SameName("Content-Length", fields[j].name) { OnlyOne(fields, i, j, "Content-Length"); }
      FindsUnderName(fields, i, "Content-Length");
    } else {
      FindsNothing(fields, "Content-Length");
    }
  }

  lemma OnlyOne(fields: Fields, i: nat, j: nat, name: string)
    requires Sorted(fields) && i < |fields| && j < |fields| && i != j && SameName(name, fields[i].name)
    ensures !SameName(name, fields[j].name)
  {
    SameNameTransfers(name, fields[i].name, fields[j].name);
    StriCmpAntisymmetric(fields[i].name, fields[j].name);
  }

  /** A printed length is read back under every spelling. */
  lemma ContentLengthInAnyCase(name: string, n: nat)
    requires SameLetters("Content-Length", name) && n < 0x1_0000_0000_0000_0000
    ensures ContentLength([Field(name, Decimal(n))]) == Some(n)
  {
    hide SameLetters;
    ContentLengthMeaning([Field(name, Decimal(n))]);
    DecimalRoundTrip(n, TWO_64);
    assert [Field(name, Decimal(n))][0].name == name;
  }
}
