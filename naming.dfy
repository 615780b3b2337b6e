/** Plan generation (`generate_new_names`): the image at 1-based position i
    is to be named `"%02d" % i` followed by its lowercased suffix, in the
    directory it is already in. */
module Naming {
  import opened Paths

  predicate IsDigit(c: char) {
    '0' <= c <= '9'
  }

  predicate AllDigits(s: string) {
    forall i :: 0 <= i < |s| ==> IsDigit(s[i])
  }

  function DigitChar(d: nat): (c: char)
    requires d < 10
    ensures IsDigit(c)
  {
    ('0' as int + d) as char
  }

  function DigitValue(c: char): nat
    requires IsDigit(c)
  {
    c as int - '0' as int
  }

  /** The decimal rendering of `n`, with no leading zero. */
  function Decimal(n: nat): (r: string)
    ensures |r| >= 1 && AllDigits(r)
    ensures r[0] == '0' <==> n == 0
  {
    if n < 10 then [DigitChar(n)] else Decimal(n / 10) + [DigitChar(n % 10)]
  }

  /** `f"{n:02d}"`: the decimal rendering left-padded with zeros to at least
      two characters. */
  function Padded(n: nat): (r: string)
    ensures AllDigits(r) && |r| >= 2
  {
    if n < 10 then "0" + Decimal(n) else Decimal(n)
  }

  /** The number a string of digits denotes. */
  function Value(s: string): nat
    requires AllDigits(s)
  {
    if s == [] then 0 else Value(s[..|s| - 1]) * 10 + DigitValue(s[|s| - 1])
  }

  /** Reading back the decimal rendering gives the number. */
  lemma {:induction false} DecimalValue(n: nat)
    ensures Value(Decimal(n)) == n
  {
    if n >= 10 {
      DecimalValue(n / 10);
      var d := Decimal(n);
      assert d[..|d| - 1] == Decimal(n / 10);
    }
  }

  /** Reading back the padded rendering gives the number. */
  lemma PaddedValue(n: nat)
    ensures Value(Padded(n)) == n
  {
    DecimalValue(n);
    if n < 10 {
      var p := Padded(n);
      assert p[..1] == "0";
    }
  }

  /** Distinct numbers have distinct padded renderings. */
  lemma PaddedInjective(m: nat, n: nat)
    ensures Padded(m) == Padded(n) <==> m == n
  {
    PaddedValue(m);
    PaddedValue(n);
  }

  /** Two digits below 100, more from 100 on: the width is a minimum, not a
      truncation. */
  lemma PaddedWidth(n: nat)
    ensures n < 100 <==> |Padded(n)| == 2
  {
    if n >= 100 {
      assert Decimal(n) == Decimal(n / 10) + [DigitChar(n % 10)];
      assert Decimal(n / 10) == Decimal(n / 100) + [DigitChar(n / 10 % 10)];
    } else if n >= 10 {
      assert Decimal(n) == Decimal(n / 10) + [DigitChar(n % 10)];
    }
  }

  lemma PaddedExamples()
    ensures Padded(1) == "01" && Padded(9) == "09"
    ensures Padded(10) == "10" && Padded(14) == "14" && Padded(100) == "100"
  {
    assert Decimal(14) == Decimal(1) + [DigitChar(4)];
    assert Decimal(10) == Decimal(1) + [DigitChar(0)];
    assert Decimal(100) == Decimal(10) + [DigitChar(0)];
  }

  /** The longest prefix of `s` made of digits. */
  function DigitPrefix(s: string): (r: string)
    ensures AllDigits(r) && |r| <= |s| && r == s[..|r|]
    ensures |r| < |s| ==> !IsDigit(s[|r|])
  {
    if s != [] && IsDigit(s[0]) then [s[0]] + DigitPrefix(s[1..]) else []
  }

  /** The number a name starts with: what orders "01.jpg", "02.jpg", ... */
  function LeadingNumber(name: string): nat {
    Value(DigitPrefix(name))
  }

  /** Digits followed by a part that does not start with a digit: the digits
      are the digit prefix. */
  lemma {:induction false} DigitPrefixOf(a: string, b: string)
    requires AllDigits(a)
    requires b == [] || !IsDigit(b[0])
    ensures DigitPrefix(a + b) == a
  {
    if a == [] {
      assert a + b == b;
    } else {
      DigitPrefixOf(a[1..], b);
      assert (a + b)[1..] == a[1..] + b;
    }
  }

  /** The new path for the image at 1-based `position`. */
  function TargetName(position: nat, source: Path): Path {
    Path(source.dir, Padded(position) + Lower(Suffix(source.name)))
  }

  /** The new path stays in the source's directory, starts with the position,
      and has the source's suffix, lowercased, as its own suffix. */
  lemma TargetNameFacts(position: nat, source: Path)
    ensures TargetName(position, source).dir == source.dir
    ensures LeadingNumber(TargetName(position, source).name) == position
    ensures Suffix(TargetName(position, source).name) == Lower(Suffix(source.name))
  {
    var p := Padded(position);
    var ext := Lower(Suffix(source.name));
    LowerFacts(Suffix(source.name));
    DigitPrefixOf(p, ext);
    PaddedValue(position);
    if ext == [] {
      assert p + ext == p;
      RFindUnique(p, '.', -1);
    } else {
      SuffixOfConcat(p, ext);
    }
  }

  /** `generate_new_names`: one (source, target) pair per image, in order. */
  function NewNames(images: seq<Path>): seq<(Path, Path)> {
    seq(|images|, i requires 0 <= i < |images| => (images[i], TargetName(i + 1, images[i])))
  }

  /** The loop of `generate_new_names`. */
  method GenerateNewNames(images: seq<Path>) returns (renames: seq<(Path, Path)>)
    ensures renames == NewNames(images)
  {
    renames := [];
    for i := 0 to |images|
      invariant |renames| == i
      invariant forall j :: 0 <= j < i ==> renames[j] == NewNames(images)[j]
    {
      var newPath := TargetName(i + 1, images[i]);
      assert (images[i], newPath) == NewNames(images)[i];
      renames := renames + [(images[i], newPath)];
    }
  }

  /** Distinct positions give distinct targets, whatever the sources. */
  lemma TargetNamesDistinct(m: nat, n: nat, p: Path, q: Path)
    requires m != n
    ensures TargetName(m, p) != TargetName(n, q)
  {
    TargetNameFacts(m, p);
    TargetNameFacts(n, q);
  }

  /** The plan has one pair per image, in image order; pair i moves image i
      to the name numbered i + 1 in its own directory, with its lowercased
      suffix. */
  lemma NewNamesSpec(images: seq<Path>)
    ensures |NewNames(images)| == |images|
    ensures forall i :: 0 <= i < |images| ==>
              NewNames(images)[i].0 == images[i] &&
              NewNames(images)[i].1.dir == images[i].dir &&
              LeadingNumber(NewNames(images)[i].1.name) == i + 1 &&
              Suffix(NewNames(images)[i].1.name) == Lower(Suffix(images[i].name))
  {
    forall i | 0 <= i < |images|
      ensures NewNames(images)[i].0 == images[i] &&
              NewNames(images)[i].1.dir == images[i].dir &&
              LeadingNumber(NewNames(images)[i].1.name) == i + 1 &&
              Suffix(NewNames(images)[i].1.name) == Lower(Suffix(images[i].name))
    {
      NewNameAt(images, i);
    }
  }

  /** NewNamesSpec for one pair. */
  lemma NewNameAt(images: seq<Path>, i: nat)
    requires i < |images|
    ensures NewNames(images)[i].0 == images[i] &&
            NewNames(images)[i].1.dir == images[i].dir &&
            LeadingNumber(NewNames(images)[i].1.name) == i + 1 &&
            Suffix(NewNames(images)[i].1.name) == Lower(Suffix(images[i].name))
  {
    var t := TargetName(i + 1, images[i]);
    assert NewNames(images)[i] == (images[i], t);
    TargetNameFacts(i + 1, images[i]);
  }

  /** No two pairs of the plan share a target. */
  lemma NewNamesDistinct(images: seq<Path>)
    ensures forall i, j :: 0 <= i < j < |images| ==>
              NewNames(images)[i].1 != NewNames(images)[j].1
  {
    forall i, j | 0 <= i < j < |images| ensures NewNames(images)[i].1 != NewNames(images)[j].1 {
      TargetNamesDistinct(i + 1, j + 1, images[i], images[j]);
    }
  }

  /** `photo.HEIC` at position 1 becomes `01.heic`. */
  lemma TargetNameHeicExample(dir: string, stem: string)
    requires |stem| > 0
    ensures TargetName(1, Path(dir, stem + ".HEIC")) == Path(dir, "01.heic")
  {
    var p := Padded(1);
    assert p == "01";
    var e := Lower(Suffix(stem + ".HEIC"));
    assert e == ".heic" by {
      SuffixOfConcat(stem, ".HEIC");
      assert Lower(".HEIC") == ".heic";
    }
    assert p + e == "01.heic";
  }

  /** The fourteenth `.jpg` becomes `14.jpg`. */
  lemma TargetNameJpgExample(dir: string, stem: string)
    requires |stem| > 0
    ensures TargetName(14, Path(dir, stem + ".jpg")) == Path(dir, "14.jpg")
  {
    var p := Padded(14);
    assert p == "14" by {
      assert Decimal(14) == Decimal(1) + [DigitChar(4)];
    }
    var e := Lower(Suffix(stem + ".jpg"));
    assert e == ".jpg" by {
      SuffixOfConcat(stem, ".jpg");
      assert Lower(".jpg") == ".jpg";
    }
    assert p + e == "14.jpg";
  }
}
