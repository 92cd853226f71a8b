/** References to stored uploads, `<owner>/<suffix>` or `/uploads/<owner>/<suffix>`, and giving them another owner. */
module UploadReferences {
  import opened Optional
  import opened Text
  import opened Decimal
  import opened PortablePaths

  const PREFIX: string := "/uploads/"
  const MAX_OWNER: nat := 0xffff_ffff_ffff_ffff

  /** Text that does not look like a reference is left alone; text that does must be one. */
  datatype Parsed = NotRecognized | Malformed | Reference(owner: nat, suffix: string, absolute: bool)

  predicate HasPrefix(value: string) {
    PREFIX <= value
  }

  predicate IsSeparator(c: char) { c == '/' || c == '\\' }

  /** The index of the first slash or backslash, or the length. */
  function FindSeparator(s: string): (i: nat)
    ensures i <= |s| && (i < |s| ==> IsSeparator(s[i])) && (forall k :: 0 <= k < i ==> !IsSeparator(s[k]))
  {
    if s == [] || IsSeparator(s[0]) then 0 else 1 + FindSeparator(s[1..])
  }

  predicate LooksLikeReference(value: string) {
    HasPrefix(value) || (0 < FindSeparator(value) < |value| && IsDecimal(value[..FindSeparator(value)]))
  }

  /** `parseStoredUploadOwner`: a positive 64-bit number in canonical decimal. */
  predicate IsOwner(text: string) {
    IsDecimal(text) && 0 < Number(text) <= MAX_OWNER && Digits(Number(text)) == text
  }

  function Checked(owner: string, suffix: string, absolute: bool): Parsed {
    if !IsOwner(owner) || !IsPortablePath(suffix) then Malformed else Reference(Number(owner), suffix, absolute)
  }

  /** `parseStoredUploadReference`. */
  function Parse(value: string): Parsed {
    if value == "" then NotRecognized
    else if TrimSpace(value) != value && LooksLikeReference(TrimSpace(value)) then Malformed
    else if HasPrefix(value) then
      var rest := value[|PREFIX|..];
      var i := Find(rest, '/');
      if i == |rest| then Malformed else Checked(rest[..i], rest[i + 1..], true)
    else
      var i := Find(value, '/');
      if i == |value| || !IsDecimal(value[..i]) then
        var b := Find(value, '\\');
        if 0 < b < |value| && IsDecimal(value[..b]) then Malformed else NotRecognized
      else Checked(value[..i], value[i + 1..], false)
  }

  function Print(owner: nat, suffix: string, absolute: bool): string {
    (if absolute then PREFIX else "") + (Digits(owner) + "/" + suffix)
  }

  /** The references there are. */
  predicate ValidReference(owner: nat, suffix: string) {
    0 < owner <= MAX_OWNER && IsPortablePath(suffix) && !IsSpace(suffix[|suffix| - 1])
  }

  lemma DigitsHaveNoSlash(s: string)
    requires AllDigits(s)
    ensures '/' !in s && '\\' !in s && (s != "" ==> !IsSpace(s[0]) && s[0] != '/')
  {
    forall i | 0 <= i < |s| ensures s[i] != '/' && s[i] != '\\' && !IsSpace(s[i]) {
      assert IsDigit(s[i]);
    }
  }

  lemma CheckedPrinted(owner: nat, suffix: string, absolute: bool)
    requires 0 < owner <= MAX_OWNER && IsPortablePath(suffix)
    ensures Checked(Digits(owner), suffix, absolute) == Reference(owner, suffix, absolute)
  {
    NumberOfDigits(owner);
  }

  /** Where the text of a relative reference is cut. */
  lemma RelativeCut(d: string, suffix: string)
    requires IsDecimal(d) && suffix != "" && !IsSpace(suffix[|suffix| - 1])
    ensures Parse(d + "/" + suffix) == Checked(d, suffix, false)
  {
    var value := d + "/" + suffix;
    DigitsHaveNoSlash(d);
    assert value[0] == d[0] && value[|value| - 1] == suffix[|suffix| - 1];
    SolidEndsStay(value);
    FindFirst(d, suffix, '/');
    assert value[..|d|] == d && value[|d| + 1..] == suffix;
  }

  lemma AbsoluteCut(d: string, suffix: string)
    requires IsDecimal(d) && suffix != "" && !IsSpace(suffix[|suffix| - 1])
    ensures Parse(PREFIX + (d + "/" + suffix)) == Checked(d, suffix, true)
  {
    var body := d + "/" + suffix;
    var value := PREFIX + body;
    DigitsHaveNoSlash(d);
    assert value[0] == '/' && value[|value| - 1] == suffix[|suffix| - 1];
    SolidEndsStay(value);
    assert value[|PREFIX|..] == body;
    FindFirst(d, suffix, '/');
    assert body[..|d|] == d && body[|d| + 1..] == suffix;
  }

  /** Parsing undoes printing. */
  lemma ParsePrint(owner: nat, suffix: string, absolute: bool)
    requires ValidReference(owner, suffix)
    ensures Parse(Print(owner, suffix, absolute)) == Reference(owner, suffix, absolute)
  {
    CheckedPrinted(owner, suffix, absolute);
    if absolute {
      AbsoluteCut(Digits(owner), suffix);
    } else {
      RelativeCut(Digits(owner), suffix);
      assert "" + (Digits(owner) + "/" + suffix) == Digits(owner) + "/" + suffix;
    }
  }

  lemma SlashStays(value: string, k: nat)
    requires k < |value| && value[k] == '/' && !IsSpace(value[0])
    ensures k < |TrimSpace(value)| <= |value| && TrimSpace(value) == value[..|TrimSpace(value)|]
  {
    TrimRightKeeps(value, k);
    TrimRightResult(value);
  }

  lemma SeparatorAfterDigits(value: string, i: nat)
    requires i < |value| && value[i] == '/' && AllDigits(value[..i])
    ensures FindSeparator(value) == i
  {
    DigitsHaveNoSlash(value[..i]);
    forall k | 0 <= k < i ensures !IsSeparator(value[k]) {
      assert value[k] == value[..i][k] && value[k] in value[..i];
    }
  }

  lemma RelativeLooks(text: string, i: nat)
    requires i < |text| && text[i] == '/' && IsDecimal(text[..i])
    ensures LooksLikeReference(text)
  {
    SeparatorAfterDigits(text, i);
  }

  /** White space at the end of what looks like a reference does not go unnoticed. */
  lemma RelativeIsTrimmed(value: string, i: nat)
    requires i < |value| && value[i] == '/' && IsDecimal(value[..i])
    requires TrimSpace(value) == value || !LooksLikeReference(TrimSpace(value))
    ensures TrimSpace(value) == value
  {
    DigitsHaveNoSlash(value[..i]);
    assert value[0] == value[..i][0];
    SlashStays(value, i);
    var n := |TrimSpace(value)|;
    assert value[..n][..i] == value[..i];
    RelativeLooks(value[..n], i);
  }

  lemma AbsoluteIsTrimmed(value: string)
    requires HasPrefix(value)
    requires TrimSpace(value) == value || !LooksLikeReference(TrimSpace(value))
    ensures TrimSpace(value) == value
  {
    assert value[8] == PREFIX[8] && value[0] == PREFIX[0];
    SlashStays(value, 8);
    assert TrimSpace(value)[..|PREFIX|] == value[..|PREFIX|] == PREFIX;
  }

  lemma CheckedIsPrinted(owner: string, suffix: string, absolute: bool)
    requires Checked(owner, suffix, absolute).Reference?
    ensures var ref := Checked(owner, suffix, absolute);
            && Digits(ref.owner) == owner && ref.suffix == suffix && ref.absolute == absolute
            && 0 < ref.owner <= MAX_OWNER && IsPortablePath(ref.suffix) && suffix != ""
  {
  }

  lemma LastOfSuffix(value: string, head: string, suffix: string)
    requires suffix != "" && value == head + suffix && TrimSpace(value) == value
    ensures !IsSpace(suffix[|suffix| - 1])
  {
    TrimmedEnds(value);
    assert value[|value| - 1] == suffix[|suffix| - 1];
  }

  lemma ParsedRelative(value: string)
    requires !HasPrefix(value) && Parse(value).Reference?
    ensures var i := Find(value, '/');
            && i < |value| && IsDecimal(value[..i]) && Parse(value) == Checked(value[..i], value[i + 1..], false)
            && (TrimSpace(value) == value || !LooksLikeReference(TrimSpace(value)))
  {
  }

  lemma ParsedAbsolute(value: string)
    requires HasPrefix(value) && Parse(value).Reference?
    ensures var rest := value[|PREFIX|..];
            var i := Find(rest, '/');
            && i < |rest| && Parse(value) == Checked(rest[..i], rest[i + 1..], true)
            && (TrimSpace(value) == value || !LooksLikeReference(TrimSpace(value)))
  {
  }

  /** The text cut into owner and suffix, put together again. */
  lemma CutIsPrinted(value: string, head: string, owner: string, suffix: string, absolute: bool)
    requires value == head + (owner + "/" + suffix) && head == (if absolute then PREFIX else "")
    requires Checked(owner, suffix, absolute).Reference? && TrimSpace(value) == value
    ensures var ref := Checked(owner, suffix, absolute);
            ValidReference(ref.owner, ref.suffix) && value == Print(ref.owner, ref.suffix, ref.absolute)
  {
    CheckedIsPrinted(owner, suffix, absolute);
    assert value == (head + (owner + "/")) + suffix;
    LastOfSuffix(value, head + (owner + "/"), suffix);
  }

  ghost predicate IsPrinted(value: string, ref: Parsed) {
    && ref.Reference? && ValidReference(ref.owner, ref.suffix)
    && value == Print(ref.owner, ref.suffix, ref.absolute) && TrimSpace(value) == value
  }

  lemma CutAtSlash(s: string, i: nat)
    requires i < |s| && s[i] == '/'
    ensures s == s[..i] + "/" + s[i + 1..]
  {
  }

  lemma AbsoluteIsPrinted(value: string)
    requires HasPrefix(value) && Parse(value).Reference?
    ensures IsPrinted(value, Parse(value))
  {
    ParsedAbsolute(value);
    AbsoluteIsTrimmed(value);
    var rest := value[|PREFIX|..];
    var i := Find(rest, '/');
    CutAtSlash(rest, i);
    assert value == PREFIX + rest;
    CutIsPrinted(value, PREFIX, rest[..i], rest[i + 1..], true);
  }

  lemma RelativeIsPrinted(value: string)
    requires !HasPrefix(value) && Parse(value).Reference?
    ensures IsPrinted(value, Parse(value))
  {
    ParsedRelative(value);
    var i := Find(value, '/');
    RelativeIsTrimmed(value, i);
    assert value == "" + (value[..i] + "/" + value[i + 1..]);
    CutIsPrinted(value, "", value[..i], value[i + 1..], false);
  }

  /** Whatever parses as a reference is the printed form of it. */
  lemma ParsedIsPrinted(value: string)
    requires Parse(value).Reference?
    ensures IsPrinted(value, Parse(value))
  {
    if HasPrefix(value) {
      AbsoluteIsPrinted(value);
    } else {
      RelativeIsPrinted(value);
    }
  }

  lemma BackslashLooks(value: string, b: nat)
    requires b < |value| && value[b] == '\\' && IsDecimal(value[..b])
    ensures LooksLikeReference(value)
    ensures !IsSpace(value[0]) && !IsSpace(value[b])
  {
    DigitsHaveNoSlash(value[..b]);
    assert value[0] == value[..b][0];
    forall k | 0 <= k < b ensures !IsSeparator(value[k]) {
      assert value[k] == value[..b][k] && value[k] in value[..b];
    }
    assert FindSeparator(value) == b;
  }

  /** White space does not hide a number before a backslash either. */
  lemma BackslashIsTrimmed(value: string, b: nat)
    requires b < |value| && value[b] == '\\' && IsDecimal(value[..b])
    ensures LooksLikeReference(TrimSpace(value))
  {
    BackslashLooks(value, b);
    TrimRightKeeps(value, b);
    TrimRightResult(value);
    var n := |TrimSpace(value)|;
    assert TrimSpace(value) == value[..n] && value[..n][..b] == value[..b];
    BackslashLooks(value[..n], b);
  }

  lemma NotDecimalPast(text: string, s: nat, i: nat)
    requires s < i <= |text| && IsSeparator(text[s])
    ensures !IsDecimal(text[..i])
  {
    assert text[..i][s] == text[s];
  }

  /** Text without white space around it that looks like a reference is one, or a broken one. */
  lemma LooksIsParsed(text: string)
    requires TrimSpace(text) == text
    ensures LooksLikeReference(text) <==> !Parse(text).NotRecognized?
  {
    var i, b := Find(text, '/'), Find(text, '\\');
    if !HasPrefix(text) {
      var s := FindSeparator(text);
      if LooksLikeReference(text) {
        if text[s] == '/' {
          assert i == s;
        } else {
          assert b == s;
          NotDecimalPast(text, s, i);
        }
      } else if i < |text| && IsDecimal(text[..i]) {
        RelativeLooks(text, i);
      } else if 0 < b < |text| && IsDecimal(text[..b]) {
        BackslashLooks(text, b);
      }
    }
  }

  /** With white space around it, exactly what would be a reference without it is rejected. */
  lemma PaddedIsMalformedIff(value: string)
    requires TrimSpace(value) != value && !Parse(TrimSpace(value)).Malformed?
    ensures Parse(value).Malformed? <==> Parse(TrimSpace(value)).Reference?
  {
    var text := TrimSpace(value);
    TrimTwice(value);
    LooksIsParsed(text);
    if !LooksLikeReference(text) {
      if HasPrefix(value) {
        AbsoluteIsTrimmed(value);
      }
      var i, b := Find(value, '/'), Find(value, '\\');
      if i < |value| && IsDecimal(value[..i]) {
        RelativeIsTrimmed(value, i);
      }
      if 0 < b < |value| && IsDecimal(value[..b]) {
        BackslashIsTrimmed(value, b);
      }
    }
  }

  /** The text begins like a reference: with the prefix, or with a number and a slash or backslash. */
  ghost predicate BeginsLikeReference(text: string) {
    || (|text| >= 9 && text[..9] == "/uploads/")
    || exists n :: 0 < n < |text| && (forall i :: 0 <= i < n ==> '0' <= text[i] <= '9') && (text[n] == '/' || text[n] == '\\')
  }

  lemma LooksIsBeginning(text: string)
    ensures LooksLikeReference(text) <==> BeginsLikeReference(text)
  {
    var s := FindSeparator(text);
    if HasPrefix(text) {
      assert text[..9] == "/uploads/";
    }
    if LooksLikeReference(text) && !HasPrefix(text) {
      forall i | 0 <= i < s ensures '0' <= text[i] <= '9' {
        assert text[i] == text[..s][i] && IsDigit(text[..s][i]);
      }
    }
    if n :| 0 < n < |text| && (forall i :: 0 <= i < n ==> '0' <= text[i] <= '9') && (text[n] == '/' || text[n] == '\\') {
      assert s == n;
      forall i | 0 <= i < n ensures IsDigit(text[..n][i]) {
      }
    }
  }

  /** Free text is exactly what does not begin like a reference once white space around it is taken away;
      everything else is a reference or broken. */
  lemma FreeTextIff(value: string)
    ensures Parse(value).NotRecognized? <==> !BeginsLikeReference(TrimSpace(value))
  {
    var text := TrimSpace(value);
    TrimTwice(value);
    LooksIsBeginning(text);
    LooksIsParsed(text);
    if text != value && !LooksLikeReference(text) {
      PaddedIsMalformedIff(value);
      if Parse(value).Reference? {
        ParsedIsPrinted(value);
      }
    }
  }

  // ---- where a reference leads ----

  /** A place in the file system, seen from the directory of all uploads. */
  datatype Place = Outside | Below(directories: seq<string>)

  /** One component of a path: nothing and "." stay, ".." goes up, everything else goes down. */
  function Go(place: Place, part: string): Place {
    if place.Outside? || part == "" || part == "." then place
    else if part == ".." then
      if place.directories == [] then Outside else Below(place.directories[..|place.directories| - 1])
    else Below(place.directories + [part])
  }

  function Walk(parts: seq<string>): Place {
    if parts == [] then Below([]) else Go(Walk(parts[..|parts| - 1]), parts[|parts| - 1])
  }

  /** The stored text as a path from the directory of all uploads. */
  function PathOf(text: string): seq<string> {
    Split(if HasPrefix(text) then text[|PREFIX|..] else text, '/')
  }

  /** From its first component on the path is in directory `home`, and every component goes down. */
  ghost predicate StaysBelow(text: string, home: string) {
    var parts := PathOf(text);
    && |parts| >= 2 && parts[0] == home
    && forall k :: 1 <= k <= |parts| ==> Walk(parts[..k]) == Below(parts[..k])
  }

  lemma {:induction false} PlainPartsGoDown(parts: seq<string>, k: nat)
    requires k <= |parts| && forall i :: 0 <= i < |parts| ==> parts[i] != "" && parts[i] != "." && parts[i] != ".."
    ensures Walk(parts[..k]) == Below(parts[..k])
  {
    if k > 0 {
      PlainPartsGoDown(parts, k - 1);
      assert parts[..k][..k - 1] == parts[..k - 1] && parts[..k] == parts[..k - 1] + [parts[k - 1]];
    }
  }

  lemma SplitAfterOwner(owner: string, suffix: string)
    requires '/' !in owner
    ensures Split(owner + "/" + suffix, '/') == [owner] + Split(suffix, '/')
  {
    SplitOfPart(owner, "/" + suffix, '/');
    assert owner + "/" + suffix == owner + ("/" + suffix);
    assert ("/" + suffix)[1..] == suffix;
    assert Split("/" + suffix, '/') == [""] + Split(suffix, '/');
    assert owner + "" == owner && ([""] + Split(suffix, '/'))[1..] == Split(suffix, '/');
  }

  /** A number is not followed by a prefix: relative references do not begin with a slash. */
  lemma PathOfPrinted(owner: nat, suffix: string, absolute: bool)
    requires ValidReference(owner, suffix)
    ensures PathOf(Print(owner, suffix, absolute)) == [Digits(owner)] + Split(suffix, '/')
  {
    var text := Print(owner, suffix, absolute);
    DigitsHaveNoSlash(Digits(owner));
    SplitAfterOwner(Digits(owner), suffix);
    if absolute {
      assert text[|PREFIX|..] == Digits(owner) + "/" + suffix;
    } else {
      assert text == Digits(owner) + "/" + suffix;
      assert text[0] == Digits(owner)[0] && IsDigit(Digits(owner)[0]);
    }
  }

  lemma ReferenceParts(value: string)
    requires Parse(value).Reference?
    ensures PathOf(value) == [Digits(Parse(value).owner)] + Split(Parse(value).suffix, '/')
    ensures forall i :: 0 <= i < |PathOf(value)| ==>
              PathOf(value)[i] != "" && PathOf(value)[i] != "." && PathOf(value)[i] != ".."
  {
    var ref := Parse(value);
    ParsedIsPrinted(value);
    PathOfPrinted(ref.owner, ref.suffix, ref.absolute);
    PortablePathMeans(ref.suffix);
    var parts := PathOf(value);
    assert IsDigit(Digits(ref.owner)[0]);
    forall i | 0 <= i < |parts| ensures parts[i] != "" && parts[i] != "." && parts[i] != ".." {
      if i > 0 {
        assert parts[i] == Split(ref.suffix, '/')[i - 1];
      }
    }
  }

  /** Whatever parses as a reference leads into its owner's directory and never out of it. */
  lemma ReferenceStaysBelow(value: string)
    requires Parse(value).Reference?
    ensures StaysBelow(value, Digits(Parse(value).owner))
  {
    ReferenceParts(value);
    forall k | 1 <= k <= |PathOf(value)| ensures Walk(PathOf(value)[..k]) == Below(PathOf(value)[..k]) {
      PlainPartsGoDown(PathOf(value), k);
    }
  }

  /** Nothing with an empty component, a "." or a ".." anywhere is a reference. */
  lemma ClimbingIsNoReference(text: string, i: nat)
    requires i < |PathOf(text)| && (PathOf(text)[i] == "" || PathOf(text)[i] == "." || PathOf(text)[i] == "..")
    ensures !Parse(text).Reference?
  {
    if Parse(text).Reference? {
      ReferenceParts(text);
    }
  }

  /** `remapStoredUploadReference`: the same upload under the target's directory. */
  function Remap(value: string, source: nat, target: nat): Option<string> {
    match Parse(value)
    case NotRecognized => Some(value)
    case Malformed => None
    case Reference(owner, suffix, absolute) =>
      if source == 0 || owner != source then None else Some(Print(target, suffix, absolute))
  }

  /** A reference owned by the source keeps suffix and form, parses with the target as owner, and
      remapping it back gives the original text. */
  lemma RemapRoundTrip(value: string, source: nat, target: nat)
    requires Parse(value).Reference? && Parse(value).owner == source && 0 < target <= MAX_OWNER
    ensures var moved := Remap(value, source, target);
            && moved.Some?
            && Parse(moved.value) == Parse(value).(owner := target)
            && TrimSpace(moved.value) == moved.value
            && Remap(moved.value, target, source) == Some(value)
  {
    var ref := Parse(value);
    ParsedIsPrinted(value);
    PrintedReference(target, ref.suffix, ref.absolute);
  }

  lemma PrintedReference(owner: nat, suffix: string, absolute: bool)
    requires ValidReference(owner, suffix)
    ensures Parse(Print(owner, suffix, absolute)) == Reference(owner, suffix, absolute)
    ensures TrimSpace(Print(owner, suffix, absolute)) == Print(owner, suffix, absolute)
  {
    ParsePrint(owner, suffix, absolute);
    ParsedIsPrinted(Print(owner, suffix, absolute));
  }

  /** Remapping succeeds exactly for text that is no reference, which it does not change, and for
      the source's own references. */
  lemma RemapSucceedsIff(value: string, source: nat, target: nat)
    ensures Remap(value, source, target).Some? <==>
              || Parse(value).NotRecognized?
              || (Parse(value).Reference? && Parse(value).owner == source)
    ensures Parse(value).NotRecognized? ==> Remap(value, source, target) == Some(value)
  {
    if Parse(value).Reference? {
      ParsedIsPrinted(value);
    }
  }

  /** Different users' references are different texts. */
  lemma OwnersDoNotMeet(s1: nat, x1: string, a1: bool, s2: nat, x2: string, a2: bool)
    requires ValidReference(s1, x1) && ValidReference(s2, x2) && Print(s1, x1, a1) == Print(s2, x2, a2)
    ensures s1 == s2 && x1 == x2 && a1 == a2
  {
    ParsePrint(s1, x1, a1);
    ParsePrint(s2, x2, a2);
  }
}
