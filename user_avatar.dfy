/**
 * The user avatar: the background colour picked from an eight-entry palette
 * by a string hash of the name, the initials shown when there is no picture,
 * and the pixel sizes. A character's code is its `char` value; JavaScript's
 * numbers are integers here, with the 32-bit wrap of `<<` written out.
 */
module UserAvatar {
  import opened Wrappers
  import opened Text
  import opened Seqs

  const TwoTo31 := 0x8000_0000
  const TwoTo32 := 0x1_0000_0000

  /** `ToInt32`: the 32-bit two's complement value with the same low 32 bits. */
  function ToInt32(x: int): (r: int)
    ensures -TwoTo31 <= r < TwoTo31
    ensures (x - r) % TwoTo32 == 0
    ensures -TwoTo31 <= x < TwoTo31 ==> r == x
  {
    var m := x % TwoTo32;
    if m >= TwoTo31 then m - TwoTo32 else m
  }

  /** Two values with the same low 32 bits convert to the same 32-bit value. */
  lemma ToInt32Congruent(x: int, y: int)
    requires (x - y) % TwoTo32 == 0
    ensures ToInt32(x) == ToInt32(y)
  {
    var k := (x - y) / TwoTo32;
    assert x == y + TwoTo32 * k;
    assert x % TwoTo32 == y % TwoTo32;
  }

  /**
   * `hash << 5` wraps only once: shifting the 32-bit value of `hash` is the
   * 32-bit value of `32 * hash`.
   */
  lemma ShiftIsWrappedProduct(h: int)
    ensures ToInt32(ToInt32(h) * 32) == ToInt32(32 * h)
  {
    var r := ToInt32(h);
    var k := (h - r) / TwoTo32;
    assert h - r == TwoTo32 * k;
    assert 32 * h - r * 32 == TwoTo32 * (32 * k);
    ToInt32Congruent(r * 32, 32 * h);
  }

  /** One turn of the loop: the character code plus the 32-bit `hash << 5`, minus the unwrapped `hash`. */
  function HashStep(h: int, c: char): int {
    c as int + (ToInt32(ToInt32(h) * 32) - h)
  }

  /** The hash of a name, character by character from the left, starting at 0. */
  function NameHash(name: string): int
    decreases |name|
  {
    if name == [] then 0 else HashStep(NameHash(name[..|name| - 1]), name[|name| - 1])
  }

  /** While `32 * hash` fits 32 bits, a turn of the loop is the polynomial step `31 * hash + c`. */
  lemma SmallStepIsPolynomial(h: int, c: char)
    requires -TwoTo31 <= 32 * h < TwoTo31
    ensures HashStep(h, c) == 31 * h + c as int
  {
    ShiftIsWrappedProduct(h);
  }

  /**
   * Each character adds at most 2^32 to the hash's magnitude, so |hash| <= |name| * 2^32;
   * for any name shorter than 2^21 characters it stays inside the integers a double
   * holds exactly (below 2^53).
   */
  lemma {:induction false} HashBound(name: string)
    ensures -|name| * TwoTo32 <= NameHash(name) <= |name| * TwoTo32
    decreases |name|
  {
    if name != [] {
      HashBound(name[..|name| - 1]);
    }
  }

  const Palette := ["#FF6B6B", "#4ECDC4", "#45B7D1", "#96CEB4", "#FFEAA7", "#DDA0DD", "#98D8C8", "#F7DC6F"]

  /** `Math.abs(hash) % colorPalette.length`. */
  function PaletteIndex(h: int): (i: nat)
    ensures i < |Palette|
    ensures (if h < 0 then -h else h) - i == 8 * ((if h < 0 then -h else h) / 8)
  {
    (if h < 0 then -h else h) % |Palette|
  }

  /** The colour `getColorFromName` picks. */
  function ColorFor(name: string): string {
    Palette[PaletteIndex(NameHash(name))]
  }

  /** `getColorFromName`: the `for` loop over the name's characters, then the palette lookup. */
  method GetColorFromName(name: string) returns (color: string)
    ensures color == ColorFor(name)
    ensures color in Palette
  {
    var hash := 0;
    var i := 0;
    while i < |name|
      invariant 0 <= i <= |name|
      invariant hash == NameHash(name[..i])
    {
      assert name[..i + 1][..i] == name[..i];
      hash := name[i] as int + (ToInt32(ToInt32(hash) * 32) - hash);
      i := i + 1;
    }
    assert name[..|name|] == name;
    color := Palette[PaletteIndex(hash)];
  }

  /** An empty name hashes to 0 and gets the first palette colour. */
  lemma EmptyNameColor()
    ensures NameHash("") == 0
    ensures ColorFor("") == "#FF6B6B"
  {
  }

  /** Two names: one letter is its own code; "Al" is `31 * 65 + 108`. */
  lemma HashExamples(a: string, al: string)
    requires a == "A" && al == "Al"
    ensures NameHash(a) == 65 && ColorFor(a) == "#4ECDC4"
    ensures NameHash(al) == 2123 && ColorFor(al) == "#96CEB4"
  {
    assert a[..0] == [] && al[..1] == a;
    SmallStepIsPolynomial(0, 'A');
    SmallStepIsPolynomial(65, 'l');
  }

  /** `part.charAt(0)`: the first character, or nothing for an empty part. */
  function FirstChar(part: string): (r: string)
    ensures |r| <= 1 && (r == [] <==> part == [])
  {
    if part == [] then "" else [part[0]]
  }

  /** The first characters of the parts, joined with nothing between them. */
  function FirstChars(parts: seq<string>): (r: string)
    ensures |r| <= |parts|
  {
    if parts == [] then "" else FirstChar(parts[0]) + FirstChars(parts[1..])
  }

  /** `getInitials`: split at spaces, first characters joined, upper-cased, at most the first two. */
  function GetInitials(name: string): (r: string)
    ensures |r| <= 2
  {
    SliceTo(Upper(FirstChars(Split(name, ' '))), 2)
  }

  predicate NonEmptyPart(part: string) {
    part != ""
  }

  /** The first characters are exactly those of the non-empty parts, in order. */
  lemma {:induction false} FirstCharsOfNonEmpty(parts: seq<string>)
    ensures var kept := Filter(parts, NonEmptyPart);
      && |FirstChars(parts)| == |kept|
      && forall k :: 0 <= k < |kept| ==> kept[k] != "" && FirstChars(parts)[k] == kept[k][0]
  {
    if parts != [] {
      FirstCharsOfNonEmpty(parts[1..]);
      FilterSatisfies(parts, NonEmptyPart);
    }
  }

  /**
   * The initials are the upper-cased first characters of the first two non-empty
   * space-separated parts of the name; so they contain no space.
   */
  lemma InitialsMeaning(name: string)
    ensures var kept := Filter(Split(name, ' '), NonEmptyPart);
      var r := GetInitials(name);
      && |r| == (if |kept| < 2 then |kept| else 2)
      && (forall k :: 0 <= k < |r| ==> kept[k] != "" && r[k] == UpperChar(kept[k][0]))
      && ' ' !in r
  {
    var parts := Split(name, ' ');
    var kept := Filter(parts, NonEmptyPart);
    FirstCharsOfNonEmpty(parts);
    var r := GetInitials(name);
    forall k | 0 <= k < |r| ensures r[k] != ' ' {
      assert kept[k] in kept;
      FilterMembership(parts, NonEmptyPart, kept[k]);
      var j :| 0 <= j < |parts| && parts[j] == kept[k];
      assert ' ' !in parts[j];
    }
  }

  /** Splitting a name made only of spaces gives only empty parts. */
  lemma {:induction false} SpacesSplitEmpty(name: string)
    requires forall i :: 0 <= i < |name| ==> name[i] == ' '
    ensures forall j :: 0 <= j < |Split(name, ' ')| ==> Split(name, ' ')[j] == ""
    decreases |name|
  {
    if name != [] {
      assert IndexOf(name, ' ') == 0;
      SpacesSplitEmpty(name[1..]);
    }
  }

  /** Empty parts contribute no first characters. */
  lemma {:induction false} EmptyPartsNoChars(parts: seq<string>)
    requires forall j :: 0 <= j < |parts| ==> parts[j] == ""
    ensures FirstChars(parts) == ""
  {
    if parts != [] {
      EmptyPartsNoChars(parts[1..]);
    }
  }

  /** An empty name, or one of spaces only, has no initials. */
  lemma NoPartsNoInitials(name: string)
    requires forall i :: 0 <= i < |name| ==> name[i] == ' '
    ensures GetInitials(name) == ""
  {
    SpacesSplitEmpty(name);
    EmptyPartsNoChars(Split(name, ' '));
  }

  /** A single word gives its upper-cased first letter. */
  lemma OneWordInitial(w: string)
    requires ' ' !in w && w != ""
    ensures GetInitials(w) == [UpperChar(w[0])]
  {
    SplitWord(w, ' ');
    assert FirstChars([w]) == [w[0]];
  }

  /** Parts whose first two are non-empty give those two first letters, upper-cased. */
  lemma LeadingPartsInitials(parts: seq<string>)
    requires |parts| >= 2 && parts[0] != "" && parts[1] != ""
    ensures SliceTo(Upper(FirstChars(parts)), 2) == [UpperChar(parts[0][0]), UpperChar(parts[1][0])]
  {
    var f := FirstChars(parts);
    assert f == [parts[0][0]] + FirstChars(parts[1..]);
    assert FirstChars(parts[1..]) == [parts[1][0]] + FirstChars(parts[1..][1..]);
    assert f[0] == parts[0][0] && f[1] == parts[1][0];
  }

  /** Two words give both upper-cased first letters. */
  lemma TwoWordInitials(w1: string, w2: string)
    requires ' ' !in w1 && w1 != "" && ' ' !in w2 && w2 != ""
    ensures GetInitials(w1 + [' '] + w2) == [UpperChar(w1[0]), UpperChar(w2[0])]
  {
    SplitWords(w1, ' ', w2);
    SplitWord(w2, ' ');
    LeadingPartsInitials([w1, w2]);
  }

  /** Three words give only the first two first letters. */
  lemma ThreeWordInitials(w1: string, w2: string, w3: string)
    requires ' ' !in w1 && w1 != "" && ' ' !in w2 && w2 != "" && ' ' !in w3 && w3 != ""
    ensures GetInitials(w1 + [' '] + (w2 + [' '] + w3)) == [UpperChar(w1[0]), UpperChar(w2[0])]
  {
    var rest := w2 + [' '] + w3;
    SplitWords(w1, ' ', rest);
    SplitWords(w2, ' ', w3);
    SplitWord(w3, ' ');
    LeadingPartsInitials([w1] + ([w2] + [w3]));
  }

  /** Concrete names: "John Doe" is "JD", "alice" is "A", "a b c" is "AB". */
  lemma InitialsExamples(john: string, doe: string, alice: string, a: string, b: string, c: string)
    requires john == "John" && doe == "Doe" && alice == "alice" && a == "a" && b == "b" && c == "c"
    ensures GetInitials(john + " " + doe) == "JD"
    ensures GetInitials(alice) == "A"
    ensures GetInitials(a + " " + (b + " " + c)) == "AB"
  {
    TwoWordInitials(john, doe);
    OneWordInitial(alice);
    ThreeWordInitials(a, b, c);
  }

  datatype Size = Sm | Md | Lg

  const DefaultSize := Md

  /** `sizeMap`: the avatar's width and height in pixels. */
  function Dimension(size: Size): (px: nat)
    ensures px == 32 || px == 40 || px == 56
  {
    match size
    case Sm => 32
    case Md => 40
    case Lg => 56
  }

  /** Larger sizes are larger, and the default is 40 pixels. */
  lemma DimensionOrdered()
    ensures Dimension(Sm) < Dimension(Md) < Dimension(Lg)
    ensures Dimension(DefaultSize) == 40
  {
  }

  /** The props of the avatar; optional ones are `Option`s. */
  datatype AvatarProps = AvatarProps(name: string, imageUrl: Option<string>, size: Size, online: Option<bool>)

  /** The avatar's body: the picture, or the initials on the name's colour. */
  datatype Face = Picture(src: string, alt: string, px: nat) | InitialsDisc(text: string, background: string, px: nat)

  /** The whole avatar: its face and the colour of the online dot, if any. */
  datatype AvatarView = AvatarView(face: Face, dot: Option<string>)

  function RenderAvatar(p: AvatarProps): AvatarView {
    var px := Dimension(p.size);
    AvatarView(
      if p.imageUrl.Some? && p.imageUrl.value != "" then Picture(p.imageUrl.value, p.name, px)
      else InitialsDisc(GetInitials(p.name), ColorFor(p.name), px),
      match p.online
      case None => None
      case Some(on) => Some(if on then "#4CAF50" else "#9E9E9E"))
  }

  /**
   * The picture is used exactly for a non-empty image address; otherwise the
   * initials sit on a palette colour. The dot is shown exactly when `online`
   * is given, green when online.
   */
  lemma AvatarChoices(p: AvatarProps)
    ensures var v := RenderAvatar(p);
      && (v.face.Picture? <==> p.imageUrl.Some? && p.imageUrl.value != "")
      && (v.face.InitialsDisc? ==> v.face.background in Palette && |v.face.text| <= 2)
      && v.face.px == Dimension(p.size)
      && (v.dot.Some? <==> p.online.Some?)
      && (v.dot == Some("#4CAF50") <==> p.online == Some(true))
  {
  }
}
