/** The names an answer may hold: the texts UTF-8 encodes
    (sections 3 and 4 of RFC 3629). */
module Utf8Names {
  import opened Wrappers
  import opened Orders
  import opened Sorting
  import opened Paths
  import opened Entries

  /** A character: a code point that is no half of a surrogate pair. */
  type Scalar = c: nat | c < 0xD800 || 0xE000 <= c < 0x11_0000

  function Continued(c: nat): Byte {
    0x80 + c % 0x40
  }

  function Encode(c: Scalar): Name {
    if c < 0x80 then [c]
    else if c < 0x800 then [0xC0 + c / 0x40, Continued(c)]
    else if c < 0x1_0000 then [0xE0 + c / 0x1000, Continued(c / 0x40), Continued(c)]
    else [0xF0 + c / 0x4_0000, Continued(c / 0x1000), Continued(c / 0x40), Continued(c)]
  }

  function EncodeAll(text: seq<Scalar>): Name {
    if text == [] then [] else Encode(text[0]) + EncodeAll(text[1..])
  }

  /** The step the check takes past a character. */
  predicate Passes(name: Name, i: nat, n: nat) {
    1 <= n && i + n <= |name| && (Utf8(name, i) <==> Utf8(name, i + n))
  }

  lemma PassesEncoded(name: Name, i: nat, c: Scalar)
    requires i + |Encode(c)| <= |name| && name[i..i + |Encode(c)|] == Encode(c)
    ensures Passes(name, i, |Encode(c)|)
  {
    var bytes := Encode(c);
    assert name[i] == bytes[0] by {
      assert name[i] == name[i..i + |bytes|][0];
    }
    assert |bytes| > 1 ==> name[i + 1] == name[i..i + |bytes|][1];
    assert |bytes| > 2 ==> name[i + 2] == name[i..i + |bytes|][2];
    assert |bytes| > 3 ==> name[i + 3] == name[i..i + |bytes|][3];
    if 0x800 <= c < 0x1_0000 {
      ThreeBytes(c);
    }
    if c >= 0x1_0000 {
      FourBytes(c);
    }
  }

  lemma ThreeBytes(c: Scalar)
    requires 0x800 <= c < 0x1_0000
    ensures var (first, second) := (0xE0 + c / 0x1000, Continued(c / 0x40));
      (first == 0xE0 ==> second >= 0xA0) && (first == 0xED ==> second < 0xA0)
  {
    assert c / 0x40 / 0x40 == c / 0x1000;
  }

  lemma FourBytes(c: Scalar)
    requires 0x1_0000 <= c
    ensures var (first, second) := (0xF0 + c / 0x4_0000, Continued(c / 0x1000));
      first < 0xF5 && (first == 0xF0 ==> second >= 0x90) && (first == 0xF4 ==> second < 0x90)
  {
    assert c / 0x1000 / 0x40 == c / 0x4_0000;
  }

  lemma {:induction false} EncodedIsUtf8(name: Name, i: nat, text: seq<Scalar>)
    requires i <= |name| && name[i..] == EncodeAll(text)
    ensures Utf8(name, i)
    decreases |text|
  {
    hide Encode, EncodeAll;
    if text == [] {
      NoText(name, i, text);
    } else {
      hide Utf8;
      NextCharacter(name, i, text);
      PassesEncoded(name, i, text[0]);
      EncodedIsUtf8(name, i + |Encode(text[0])|, text[1..]);
    }
  }

  lemma NoText(name: Name, i: nat, text: seq<Scalar>)
    requires i <= |name| && text == [] && name[i..] == EncodeAll(text)
    ensures i == |name|
  {
  }

  lemma NextCharacter(name: Name, i: nat, text: seq<Scalar>)
    requires i <= |name| && text != [] && name[i..] == EncodeAll(text)
    ensures var n := |Encode(text[0])|;
      && i + n <= |name| && name[i..i + n] == Encode(text[0]) && name[i + n..] == EncodeAll(text[1..])
  {
    hide Encode;
    SplitsAt(name, i, Encode(text[0]), EncodeAll(text[1..]));
  }

  lemma SplitsAt(name: Name, i: nat, head: Name, rest: Name)
    requires i <= |name| && name[i..] == head + rest
    ensures i + |head| <= |name| && name[i..i + |head|] == head && name[i + |head|..] == rest
  {
    assert name[i..i + |head|] == name[i..][..|head|] && name[i + |head|..] == name[i..][|head|..];
  }

  /** The character a check finds at `i`. */
  lemma Decoded(name: Name, i: nat) returns (c: Scalar)
    requires i < |name| && Utf8(name, i)
    ensures i + |Encode(c)| <= |name| && name[i..i + |Encode(c)|] == Encode(c)
  {
    var first: int := name[i];
    if first < 0x80 {
      c := first;
      assert name[i..i + 1] == [first];
    } else if first < 0xE0 {
      c := (first - 0xC0) * 0x40 + (name[i + 1] - 0x80);
      assert name[i..i + 2] == [first, name[i + 1]];
    } else if first < 0xF0 {
      c := DecodedThree(first, name[i + 1], name[i + 2]);
      assert name[i..i + 3] == [first, name[i + 1], name[i + 2]];
    } else {
      c := DecodedFour(first, name[i + 1], name[i + 2], name[i + 3]);
      assert name[i..i + 4] == [first, name[i + 1], name[i + 2], name[i + 3]];
    }
  }

  lemma DecodedThree(a: Byte, b: Byte, d: Byte) returns (c: Scalar)
    requires 0xE0 <= a < 0xF0 && 0x80 <= b < 0xC0 && 0x80 <= d < 0xC0
    requires (a == 0xE0 ==> b >= 0xA0) && (a == 0xED ==> b < 0xA0)
    ensures Encode(c) == [a, b, d]
  {
    c := (a - 0xE0) * 0x1000 + (b - 0x80) * 0x40 + (d - 0x80);
    assert c / 0x40 == (a - 0xE0) * 0x40 + (b - 0x80);
    assert c / 0x1000 == a - 0xE0;
  }

  lemma DecodedFour(a: Byte, b: Byte, d: Byte, e: Byte) returns (c: Scalar)
    requires 0xF0 <= a < 0xF5 && 0x80 <= b < 0xC0 && 0x80 <= d < 0xC0 && 0x80 <= e < 0xC0
    requires (a == 0xF0 ==> b >= 0x90) && (a == 0xF4 ==> b < 0x90)
    ensures Encode(c) == [a, b, d, e]
  {
    c := (a - 0xF0) * 0x4_0000 + (b - 0x80) * 0x1000 + (d - 0x80) * 0x40 + (e - 0x80);
    assert c / 0x40 == (a - 0xF0) * 0x1000 + (b - 0x80) * 0x40 + (d - 0x80);
    assert c / 0x1000 == (a - 0xF0) * 0x40 + (b - 0x80);
    assert c / 0x4_0000 == a - 0xF0;
  }

  lemma {:induction false} Utf8IsEncoded(name: Name, i: nat) returns (text: seq<Scalar>)
    requires i <= |name| && Utf8(name, i)
    ensures name[i..] == EncodeAll(text)
    decreases |name| - i
  {
    if i == |name| {
      text := [];
    } else {
      var c := Decoded(name, i);
      PassesEncoded(name, i, c);
      hide Utf8, Encode;
      var n := |Encode(c)|;
      var rest := Utf8IsEncoded(name, i + n);
      text := [c] + rest;
      assert text[1..] == rest;
      assert name[i..] == name[i..i + n] + name[i + n..];
    }
  }

  /** A name is taken for UTF-8 just if it is some text's encoding. */
  lemma Utf8Exactly(name: Name)
    ensures Utf8(name, 0) <==> exists text: seq<Scalar> :: EncodeAll(text) == name
  {
    assert name[0..] == name;
    if Utf8(name, 0) {
      var text := Utf8IsEncoded(name, 0);
    }
    if text: seq<Scalar> :| EncodeAll(text) == name {
      EncodedIsUtf8(name, 0, text);
    }
  }

  /** A page is of 500 names, or of all that are left: each one's encoding of a text and after the name asked from, and
      none left out comes before any in it. */
  lemma PageHolds(names: seq<Name>, after: Option<Name>, name: Name)
    ensures var page := PageOf(names, after);
      && |page| <= 500
      && (name in page ==>
        name in names && (exists text: seq<Scalar> :: EncodeAll(text) == name)
        && (after.Some? ==> exists k: nat :: NameBefore(after.value, name, k)))
      && (name in names && Utf8(name, 0) && name !in page && (after.Some? ==> exists k: nat :: NameBefore(after.value, name, k)) ==>
        |page| == 500 && forall other :: other in page ==> exists k: nat :: NameBefore(other, name, k))
  {
    NamesTotal();
    Utf8Exactly(name);
    var (page, wants) := (PageOf(names, after), Wants(names, after));
    var sorted := Sort(CompareNames, wants);
    SortSorts(CompareNames, wants);
    WantsCounts(names, after);
    if after.Some? {
      NameOrder(after.value, name);
      assert CompareNames(after.value, name) == CompareNames(name, after.value).Reverse();
    }
    assert name in sorted <==> name in multiset(sorted);
    assert name in wants <==> name in multiset(wants);
    hide Utf8, CompareNames, Sort, Wants, NameBefore, EncodeAll;
    assert name in wants <==> name in names && Wanted(name, after) by {
      assert multiset(wants)[name] == if Wanted(name, after) then multiset(names)[name] else 0;
    }
    assert name in page ==> name in sorted;
    if name in sorted && name !in page {
      forall other | other in page ensures exists k: nat :: NameBefore(other, name, k) {
        InPageBefore(sorted, other, name);
        NameOrder(other, name);
      }
    }
  }

  lemma KeepsPlace(sorted: seq<Name>, j: nat)
    requires j < |sorted|
    ensures j < PAGE ==> sorted[j] in Entries.First(sorted, PAGE)
  {
    assert j < PAGE ==> Entries.First(sorted, PAGE)[j] == sorted[j];
  }

  lemma InPageBefore(sorted: seq<Name>, a: Name, b: Name)
    requires SortedBy(CompareNames, sorted) && a in Entries.First(sorted, PAGE) && b in sorted && b !in Entries.First(sorted, PAGE)
    ensures CompareNames(a, b) == Less
  {
    NamesTotal();
    hide CompareNames;
    var i :| 0 <= i < |Entries.First(sorted, PAGE)| && Entries.First(sorted, PAGE)[i] == a;
    var j :| 0 <= j < |sorted| && sorted[j] == b;
    KeepsPlace(sorted, j);
  }
}
