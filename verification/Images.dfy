/** Postgres image names: what a version, an upgrade and a list of extensions depend on.

    From internal/postgresversions/versions.go, internal/extensions/extensions.go and the choice of
    the wakeup reconciler, services/branch-operator/pkg/wakeup/branch.go. */
module Images {
  import opened Runs
  import opened GoText

  const CNPG_POSTGRES := "cnpg-postgres-plus"
  const XATA_ANALYTICS := "xata-analytics"

  datatype Version = Version(offering: string, major: int, minor: int)

  // ----- the functions

  function AfterLastSlash(s: string): string
  {
    if s == [] || s[|s| - 1] == '/' then [] else AfterLastSlash(s[..|s| - 1]) + [s[|s| - 1]]
  }

  /** ShortImageName: without the registry, and with the display name of the offering. */
  function ShortImageName(image: string): string
  {
    var name := AfterLastSlash(image);
    if CNPG_POSTGRES + ":" <= name then "postgres" + name[|CNPG_POSTGRES|..]
    else if XATA_ANALYTICS + ":" <= name then "analytics" + name[|XATA_ANALYTICS|..]
    else name
  }

  function Offering(image: string): string { Cut(ShortImageName(image), ':').0 }

  /** What follows the offering, if anything does. */
  function Tag(image: string): Option<string> { Cut(ShortImageName(image), ':').1 }

  /** The major version as it is written in a tag, up to a dash and a dot. */
  function MajorText(tag: string): string { Cut(Cut(tag, '-').0, '.').0 }

  /** ParseImageVersion. */
  function ParseImageVersion(image: string): Option<Version>
  {
    if Tag(image).None? then None
    else
      var minor := Cut(Cut(Tag(image).value, '-').0, '.').1;
      if minor.None? then None
      else
        var major, minor := ParseInt(MajorText(Tag(image).value)), ParseInt(minor.value);
        if major.None? || minor.None? then None else Some(Version(Offering(image), major.value, minor.value))
  }

  function LeadingDigits(s: string): string
  {
    if s == [] || !IsDigit(s[0]) then [] else [s[0]] + LeadingDigits(s[1..])
  }

  /** GetMajorForVersion. */
  function MajorForVersion(version: string): string
  {
    if LeadingDigits(version) == [] && version != [] then Cut(version, '.').0 else LeadingDigits(version)
  }

  /** What GetExtensions looks up for an image: the offering and the major version, or nothing when
      the short name does not have exactly two parts. */
  function ExtensionKey(image: string): Option<(string, string)>
  {
    if Tag(image).None? || ':' in Tag(image).value then None
    else Some((Offering(image), MajorForVersion(Tag(image).value)))
  }

  /** Same offering and same major version, as far as both can be parsed. */
  predicate SameLine(a: string, b: string)
  {
    var v, w := ParseImageVersion(a), ParseImageVersion(b);
    v.Some? && w.Some? && v.value.offering == w.value.offering && v.value.major == w.value.major
  }

  /** adoptableImage: the image of the cluster if it is a newer minor of the branch's, or nothing. */
  function AdoptableImage(branch: string, cluster: string): string
  {
    if branch == "" || cluster == "" || branch == cluster then ""
    else if !SameLine(branch, cluster) then ""
    else if ParseImageVersion(cluster).value.minor <= ParseImageVersion(branch).value.minor then ""
    else cluster
  }

  /** An image is adopted exactly if it is a newer minor of the offering and major version of the
      branch's image; older ones, the same, and those that cannot be parsed are refused. */
  lemma AdoptableIff(branch: string, cluster: string)
    ensures AdoptableImage(branch, cluster) == "" || AdoptableImage(branch, cluster) == cluster
    ensures AdoptableImage(branch, cluster) != "" <==>
      var b, c := ParseImageVersion(branch), ParseImageVersion(cluster);
      && branch != "" && cluster != "" && b.Some? && c.Some?
      && b.value.offering == c.value.offering && b.value.major == c.value.major && b.value.minor < c.value.minor
  {
  }

  lemma {:induction false} AfterLastSlashAt(registry: string, name: string)
    requires forall i :: 0 <= i < |name| ==> name[i] != '/'
    ensures AfterLastSlash(registry + ("/" + name)) == name
  {
    var s := registry + ("/" + name);
    if name == [] {
      assert s[|s| - 1] == '/';
    } else {
      var front := name[..|name| - 1];
      AfterLastSlashAt(registry, front);
      assert s[..|s| - 1] == registry + ("/" + front);
      assert s[|s| - 1] == name[|name| - 1];
    }
  }

  /** The registry is dropped, and the two source names are shown by their display names. */
  lemma ShortNames(registry: string, tag: string)
    requires forall i :: 0 <= i < |tag| ==> tag[i] != '/'
    ensures ShortImageName(registry + ("/" + ("cnpg-postgres-plus:" + tag))) == "postgres:" + tag
    ensures ShortImageName(registry + ("/" + ("xata-analytics:" + tag))) == "analytics:" + tag
  {
    ShortNameOf(registry, CNPG_POSTGRES, tag);
    ShortNameOf(registry, XATA_ANALYTICS, tag);
    assert "cnpg-postgres-plus:" + tag == CNPG_POSTGRES + ([':'] + tag);
    assert "xata-analytics:" + tag == XATA_ANALYTICS + ([':'] + tag);
    assert "postgres" + ([':'] + tag) == "postgres:" + tag && "analytics" + ([':'] + tag) == "analytics:" + tag;
  }

  lemma ShortNameOf(registry: string, source: string, tag: string)
    requires source == CNPG_POSTGRES || source == XATA_ANALYTICS
    requires forall i :: 0 <= i < |tag| ==> tag[i] != '/'
    ensures ShortImageName(registry + ("/" + (source + ([':'] + tag)))) ==
      (if source == CNPG_POSTGRES then "postgres" else "analytics") + ([':'] + tag)
  {
    var name := source + ([':'] + tag);
    AfterLastSlashAt(registry, name);
    assert name[|source|..] == [':'] + tag;
    assert source + ":" == name[..|source| + 1];
    assert name[0] == source[0] && CNPG_POSTGRES[0] == 'c' && XATA_ANALYTICS[0] == 'x';
  }

  // ----- a parsed version and the key for extensions

  lemma {:induction false} LeadingDigitsAt(digits: string, rest: string)
    requires AllDigits(digits) && (rest == [] || !IsDigit(rest[0]))
    ensures LeadingDigits(digits + rest) == digits
  {
    if digits == [] {
      assert digits + rest == rest;
    } else {
      assert (digits + rest)[1..] == digits[1..] + rest;
      LeadingDigitsAt(digits[1..], rest);
      assert digits == [digits[0]] + digits[1..];
    }
  }

  /** The major version is the leading digits, so that a pre-release shares the major of its release. */
  lemma MajorIsLeadingDigits(digits: string, rest: string)
    requires digits != [] && AllDigits(digits) && (rest == [] || !IsDigit(rest[0]))
    ensures MajorForVersion(digits + rest) == digits
  {
    LeadingDigitsAt(digits, rest);
  }

  /** Where both succeed, the parser of versions and the key for extensions read the same major. */
  lemma ParsedMajor(image: string)
    requires ParseImageVersion(image).Some?
    ensures MajorForVersion(Tag(image).value) == MajorText(Tag(image).value)
  {
    var tag := Tag(image).value;
    var major, rest := TagStartsWithMajor(tag);
    if IsDigit(major[0]) {
      assert AllDigits(major);
      LeadingDigitsAt(major, "." + rest);
    } else {
      CutAt(major, '.', Some(rest));
      assert ['.'] + rest == "." + rest;
      assert LeadingDigits(tag) == [];
    }
  }

  /** The tag begins with the text of the major version and a dot. */
  lemma TagStartsWithMajor(tag: string) returns (major: string, rest: string)
    requires Cut(Cut(tag, '-').0, '.').1.Some? && ParseInt(MajorText(tag)).Some?
    ensures major == MajorText(tag) != [] && tag == major + ("." + rest)
    ensures forall i :: 0 <= i < |major| ==> major[i] != '.' && major[i] != '-'
  {
    var undated, dated := Before(tag, '-');
    var after;
    major, after := Before(undated, '.');
    CutSplits(undated, '.');
    rest := after[1..] + dated;
    Regroup(major, after, dated);
    forall i | 0 <= i < |major| ensures major[i] != '-' {
      assert undated[i] == major[i];
    }
  }

  lemma Before(s: string, c: char) returns (before: string, rest: string)
    ensures before == Cut(s, c).0 && s == before + rest
    ensures forall i :: 0 <= i < |before| ==> before[i] != c
    ensures Cut(s, c).1.Some? ==> rest == [c] + Cut(s, c).1.value
  {
    CutSplits(s, c);
    before := Cut(s, c).0;
    rest := s[|before|..];
  }

  lemma Regroup(major: string, after: string, dated: string)
    requires after != [] && after[0] == '.'
    ensures (major + after) + dated == major + ("." + (after[1..] + dated))
  {
  }

  /** The tag carries a further colon, as a digest does. */
  predicate Pinned(image: string) { Tag(image).Some? && ':' in Tag(image).value }

  /** Two images of one line have the same extensions to look up exactly when both or neither carry a
      further colon and, if neither, they write the major version the same way. */
  lemma SameKeyIff(a: string, b: string)
    requires SameLine(a, b)
    ensures ExtensionKey(a) == ExtensionKey(b) <==>
      Pinned(a) == Pinned(b) && (Pinned(a) || MajorText(Tag(a).value) == MajorText(Tag(b).value))
  {
    ParsedMajor(a);
    ParsedMajor(b);
  }

  /** A number written without a sign and without leading zeros. */
  predicate Canonical(s: string) { s != [] && AllDigits(s) && (s[0] != '0' || |s| == 1) }

  /** An image that is not pinned and, if it has a version, writes its major plainly. */
  predicate Plain(image: string)
  {
    ParseImageVersion(image).Some? ==> !Pinned(image) && Canonical(MajorText(Tag(image).value))
  }

  lemma {:induction false} CanonicalIsLarge(s: string)
    requires Canonical(s) && |s| > 1
    ensures Digits(s) >= 10
  {
    var front := s[..|s| - 1];
    if |front| > 1 {
      CanonicalIsLarge(front);
    } else {
      assert front[0] == s[0] != '0';
      assert front[..0] == [];
    }
  }

  lemma {:induction false} CanonicalIsUnique(s: string, t: string)
    requires Canonical(s) && Canonical(t) && Digits(s) == Digits(t)
    ensures s == t
  {
    var x, y := s[|s| - 1] as int - '0' as int, t[|t| - 1] as int - '0' as int;
    if |s| > 1 { CanonicalIsLarge(s); }
    if |t| > 1 { CanonicalIsLarge(t); }
    if |s| == 1 || |t| == 1 {
      assert s[..0] == [] && t[..0] == [];
    } else {
      SameLastDigit(Digits(s[..|s| - 1]), x, Digits(t[..|t| - 1]), y);
      CanonicalIsUnique(s[..|s| - 1], t[..|t| - 1]);
      assert s == s[..|s| - 1] + [s[|s| - 1]] && t == t[..|t| - 1] + [t[|t| - 1]];
    }
  }

  lemma SameLastDigit(m: nat, x: int, n: nat, y: int)
    requires 0 <= x < 10 && 0 <= y < 10 && 10 * m + x == 10 * n + y
    ensures m == n && x == y
  {
  }

  /** Plain images of one line have the same extensions. */
  lemma PlainLineHasOneKey(a: string, b: string)
    requires Plain(a) && Plain(b) && SameLine(a, b)
    ensures ExtensionKey(a) == ExtensionKey(b)
  {
    var s, t := MajorText(Tag(a).value), MajorText(Tag(b).value);
    ParseUnsigned(s);
    ParseUnsigned(t);
    CanonicalIsUnique(s, t);
    SameKeyIff(a, b);
  }

  /** So adopting never changes the extensions between plain images. */
  lemma PlainAdoptionKeepsKey(branch: string, cluster: string)
    requires Plain(branch) && Plain(cluster) && AdoptableImage(branch, cluster) != ""
    ensures ExtensionKey(AdoptableImage(branch, cluster)) == ExtensionKey(branch)
  {
    PlainLineHasOneKey(branch, cluster);
  }

  // ----- an adoptable pair with different extensions

  ghost predicate Without(s: string, c: char) { forall i :: 0 <= i < |s| ==> s[i] != c }

  /** The image of a display name with a version and whatever follows it. */
  function Named(offering: string, major: string, minor: string, suffix: string): string
  {
    offering + ([':'] + (major + (['.'] + minor) + suffix))
  }

  /** The name is one that is shown as it is, and its parts do not run into each other. */
  ghost predicate Separate(offering: string, major: string, minor: string, suffix: string)
  {
    && Without(offering, '/') && Without(offering, ':') && offering != CNPG_POSTGRES && offering != XATA_ANALYTICS
    && AllDigits(major) && AllDigits(minor)
    && Without(suffix, '/') && (suffix == [] || suffix[0] == '-')
  }

  lemma NamedTag(offering: string, major: string, minor: string, suffix: string)
    requires Separate(offering, major, minor, suffix)
    ensures var image := Named(offering, major, minor, suffix);
      Offering(image) == offering && Tag(image) == Some(major + (['.'] + minor) + suffix)
  {
    var tag := major + (['.'] + minor) + suffix;
    ShownAsItIs(offering, tag);
    CutAt(offering, ':', Some(tag));
  }

  lemma ShownAsItIs(offering: string, tag: string)
    requires Without(offering, '/') && Without(offering, ':') && Without(tag, '/')
    requires offering != CNPG_POSTGRES && offering != XATA_ANALYTICS
    ensures ShortImageName(offering + ([':'] + tag)) == offering + ([':'] + tag)
  {
    var image := offering + ([':'] + tag);
    Unslashed(image);
    if CNPG_POSTGRES + ":" <= image {
      PrefixIsOffering(CNPG_POSTGRES, offering, tag, image);
    } else if XATA_ANALYTICS + ":" <= image {
      PrefixIsOffering(XATA_ANALYTICS, offering, tag, image);
    }
  }

  lemma PrefixIsOffering(source: string, offering: string, tag: string, image: string)
    requires image == offering + ([':'] + tag) && source + ":" <= image
    requires Without(source, ':') && Without(offering, ':')
    ensures source == offering
  {
    assert image[|source|] == (source + ":")[|source|] == ':';
    assert image[|offering|] == ':';
    assert forall i :: 0 <= i < |source| ==> image[i] == (source + ":")[i] == source[i];
    assert forall i :: 0 <= i < |offering| ==> image[i] == offering[i];
  }

  lemma Unslashed(s: string)
    requires Without(s, '/')
    ensures AfterLastSlash(s) == s
  {
  }

  lemma NamedVersion(offering: string, major: string, minor: string, suffix: string)
    requires Separate(offering, major, minor, suffix)
    requires ParseInt(major).Some? && ParseInt(minor).Some?
    ensures ParseImageVersion(Named(offering, major, minor, suffix)) ==
      Some(Version(offering, ParseInt(major).value, ParseInt(minor).value))
  {
    NamedTag(offering, major, minor, suffix);
    CutAt(major, '.', Some(minor));
    UndatedVersion(major, minor, suffix);
  }

  lemma UndatedVersion(major: string, minor: string, suffix: string)
    requires AllDigits(major) && AllDigits(minor) && (suffix == [] || suffix[0] == '-')
    ensures Cut(major + (['.'] + minor) + suffix, '-').0 == major + (['.'] + minor)
  {
    var version := major + (['.'] + minor);
    assert Without(version, '-');
    if suffix == [] {
      assert version + [] == version;
      CutAt(version, '-', None);
    } else {
      assert suffix == ['-'] + suffix[1..];
      CutAt(version, '-', Some(suffix[1..]));
    }
  }

  /** The parts of two images of one line: a release, and a newer minor with a suffix that has a colon
      in it, as the digest of a pinned image does. */
  ghost predicate PinnedPair(offering: string, major: string, minor: string, next: string, digest: string)
  {
    && Separate(offering, major, minor, "") && Separate(offering, major, next, digest)
    && ParseInt(major).Some? && ParseInt(minor).Some? && ParseInt(next).Some?
    && ParseInt(minor).value < ParseInt(next).value
    && ':' in digest
  }

  /** To the reconciler the pinned image is a newer minor to adopt; but it has no extensions to look
      up, while the release has. */
  lemma PinnedIsAdoptable(offering: string, major: string, minor: string, next: string, digest: string)
    requires PinnedPair(offering, major, minor, next, digest)
    ensures var released, pinned := Named(offering, major, minor, ""), Named(offering, major, next, digest);
      && pinned != "" && AdoptableImage(released, pinned) == pinned
      && ExtensionKey(released).Some? && ExtensionKey(pinned).None?
  {
    var released, pinned := Named(offering, major, minor, ""), Named(offering, major, next, digest);
    NamedVersion(offering, major, minor, "");
    NamedVersion(offering, major, next, digest);
    AdoptsNewerMinor(released, pinned);
    NamedKey(offering, major, minor, "");
    NamedKey(offering, major, next, digest);
  }

  lemma AdoptsNewerMinor(branch: string, cluster: string)
    requires branch != "" && cluster != "" && SameLine(branch, cluster)
    requires ParseImageVersion(branch).value.minor < ParseImageVersion(cluster).value.minor
    ensures AdoptableImage(branch, cluster) == cluster
  {
  }

  lemma NamedKey(offering: string, major: string, minor: string, suffix: string)
    requires Separate(offering, major, minor, suffix)
    ensures ExtensionKey(Named(offering, major, minor, suffix)).None? <==> ':' in suffix
  {
    NamedTag(offering, major, minor, suffix);
    InConcatenation(major, ['.'] + minor, suffix);
  }

  lemma InConcatenation(a: string, b: string, c: string)
    ensures ':' in a + b + c <==> ':' in a || ':' in b || ':' in c
  {
  }

  /** There is such a pair: postgres:17.1 and postgres:17.2-1@sha256:0. */
  lemma PinnedPairExists()
    ensures PinnedPair("postgres", "17", "1", "2", "-1@sha256:0")
  {
    assert "postgres"[0] == 'p' && CNPG_POSTGRES[0] == 'c' && XATA_ANALYTICS[0] == 'x';
    assert "-1@sha256:0"[9] == ':';
    assert "17"[..1] == "1" && "1"[..0] == "" && "2"[..0] == "";
    assert Digits("1") == 1 && Digits("2") == 2 && Digits("17") == 17;
  }
}
