/**
 * The folder scanner: the configuration parsers, the filters a scan applies to each
 * file, the resolve step that files a PDF into the catalogue, and the watch flags.
 * What the file system and PDFBox report about a file is an input (`FileProbe`);
 * the watch loop and the thread pools are not modelled.
 */
module FolderScanner {
  import opened Wrappers
  import opened JavaText
  import opened Records
  import opened Stores
  import opened DocumentRepositories

  const DEFAULT_EXTENSION: string := ".pdf"

  // ---------------------------------------------------------------- configuration

  /** What `parseExtensions` makes of one comma-separated piece: trimmed, lowercased, dotted. */
  function NormalizeExtension(piece: string): (r: Option<string>)
    ensures r.None? <==> IsTrimEmpty(piece)
    ensures r.Some? ==> WellFormedExtension(r.value)
  {
    var t := Trim(piece);
    if t == [] then None
    else
      LowerCaseFixed(t);
      Some(Dotted(Lower(t)))
  }

  /** `s.startsWith(".") ? s : "." + s` */
  function Dotted(l: string): (r: string)
    requires |l| > 0 && IsLowerCase(l)
    ensures WellFormedExtension(r)
    ensures l[0] == '.' ==> r == l
  {
    if l[0] == '.' then l
    else
      var r := "." + l;
      assert forall i :: 1 <= i < |r| ==> r[i] == l[i - 1];
      r
  }

  /** An extension as `parseExtensions` hands it out: non-empty, lowercase, starting with a dot. */
  predicate WellFormedExtension(e: string) {
    |e| > 0 && e[0] == '.' && IsLowerCase(e)
  }

  /** The pieces that survive `filter(s -> !s.isEmpty())`, normalised, in order. */
  function NormalizeAll(pieces: seq<string>): (r: seq<string>)
    ensures |r| <= |pieces|
  {
    if |pieces| == 0 then []
    else
      var rest := NormalizeAll(pieces[1..]);
      match NormalizeExtension(pieces[0])
      case None => rest
      case Some(e) => [e] + rest
  }

  /** `parseExtensions`: a missing or blank property means just ".pdf". */
  function ParseExtensions(prop: Option<string>): (r: seq<string>)
    ensures prop.None? || IsBlank(prop.value) ==> r == [DEFAULT_EXTENSION]
    ensures forall i :: 0 <= i < |r| ==> WellFormedExtension(r[i])
  {
    if prop.None? || IsBlank(prop.value) then [DEFAULT_EXTENSION]
    else
      NormalizedWellFormed(Split(prop.value, ','));
      NormalizeAll(Split(prop.value, ','))
  }

  /** Every extension that survives normalisation is well formed. */
  lemma {:induction false} NormalizedWellFormed(pieces: seq<string>)
    ensures forall i :: 0 <= i < |NormalizeAll(pieces)| ==> WellFormedExtension(NormalizeAll(pieces)[i])
  {
    if |pieces| > 0 {
      var rest := NormalizeAll(pieces[1..]);
      NormalizedWellFormed(pieces[1..]);
      match NormalizeExtension(pieces[0])
      case None =>
        assert NormalizeAll(pieces) == rest;
      case Some(e) =>
        var r := [e] + rest;
        assert NormalizeAll(pieces) == r;
        forall i | 0 <= i < |r| ensures WellFormedExtension(r[i]) {
          if i > 0 {
            assert r[i] == rest[i - 1];
          }
        }
    }
  }

  /** An extension that `parseExtensions` reads back unchanged from a comma-separated list. */
  predicate Listable(e: string) {
    WellFormedExtension(e) && ',' !in e && e[|e| - 1] > ' '
  }

  /** Normalising a piece that is already a listable extension gives it back. */
  lemma NormalizeListable(e: string)
    requires Listable(e)
    ensures NormalizeExtension(e) == Some(e)
  {
    TrimNoop(e);
    LowerCaseFixed(e);
  }

  /** Writing listable extensions as "a,b,c" and parsing that back gives the same list. */
  lemma {:induction false} ParseExtensionsOfList(exts: seq<string>)
    requires |exts| >= 1
    requires forall i :: 0 <= i < |exts| ==> Listable(exts[i])
    ensures ParseExtensions(Some(Join(exts, ','))) == exts
  {
    var prop := Join(exts, ',');
    assert prop[0] == '.' by { JoinStartsWithFirst(exts, ','); }
    assert !IsBlank(prop);
    SplitJoin(exts, ',');
    NormalizeAllListable(exts);
  }

  lemma {:induction false} JoinStartsWithFirst(xs: seq<string>, sep: char)
    requires |xs| >= 1 && |xs[0]| >= 1
    ensures |Join(xs, sep)| >= 1 && Join(xs, sep)[0] == xs[0][0]
  {
    if |xs| > 1 {
      assert Join(xs, sep) == xs[0] + [sep] + Join(xs[1..], sep);
    }
  }

  lemma {:induction false} NormalizeAllListable(exts: seq<string>)
    requires forall i :: 0 <= i < |exts| ==> Listable(exts[i])
    ensures NormalizeAll(exts) == exts
  {
    if |exts| > 0 {
      var tail := exts[1..];
      forall i | 0 <= i < |tail|
        ensures Listable(tail[i])
      {
        assert tail[i] == exts[i + 1];
      }
      NormalizeAllListable(tail);
      NormalizeListable(exts[0]);
      assert NormalizeAll(exts) == [exts[0]] + NormalizeAll(tail);
      HeadTail(exts);
    }
  }

  lemma HeadTail<T>(s: seq<T>)
    requires |s| > 0
    ensures [s[0]] + s[1..] == s
  {
  }

  /** The `(long)` cast of a whole-valued double: out-of-range values saturate. */
  function ToLong(x: int): (r: int)
    ensures LONG_MIN <= r <= LONG_MAX
    ensures LONG_MIN <= x <= LONG_MAX ==> r == x
  {
    if x < LONG_MIN then LONG_MIN else if x > LONG_MAX then LONG_MAX else x
  }

  /** `(long)(Double.parseDouble(number) * factor)` for whole numbers; None is a NumberFormatException. */
  function Scaled(number: string, factor: nat): Option<int> {
    match ParseWholeDouble(number)
    case None => None
    case Some(n) => Some(ToLong(n * factor))
  }

  const KB: nat := 1024
  const MB: nat := 1024 * 1024
  const GB: nat := 1024 * 1024 * 1024

  /**
   * `parseSizeToBytes`: a byte count from "10MB", "512KB", "2GB", "100B" or "100",
   * read after trimming and uppercasing; a missing, blank or malformed value is 0.
   */
  function ParseSizeToBytes(prop: Option<string>): (r: int)
    ensures LONG_MIN <= r <= LONG_MAX
    ensures prop.None? || IsBlank(prop.value) ==> r == 0
  {
    if prop.None? || IsBlank(prop.value) then 0
    else SizeValue(Upper(Trim(prop.value))).GetOr(0)
  }

  /** The size a trimmed, uppercased value denotes; None where parsing throws. */
  function SizeValue(s: string): (r: Option<int>)
    ensures r.Some? ==> LONG_MIN <= r.value <= LONG_MAX
  {
    if EndsWith(s, "KB") then Scaled(RemoveAll(s, "KB"), KB)
    else if EndsWith(s, "MB") then Scaled(RemoveAll(s, "MB"), MB)
    else if EndsWith(s, "GB") then Scaled(RemoveAll(s, "GB"), GB)
    else if EndsWith(s, "B") then Scaled(RemoveAll(s, "B"), 1)
    else ParseLong(s)
  }

  /** The multiplier each unit suffix stands for. */
  function UnitFactor(unit: string): nat {
    if unit == "KB" then KB else if unit == "MB" then MB else if unit == "GB" then GB else 1
  }

  /** A value that reads, once trimmed and uppercased, as `s`, is not blank. */
  lemma NotBlankWhenReadable(prop: string, s: string)
    requires Upper(Trim(prop)) == s && |s| > 0 && IsDigit(s[0])
    ensures !IsBlank(prop)
  {
    var t := TrimStart(prop);
    assert Trim(prop) == TrimEnd(t);
    assert Trim(prop)[0] == t[0];
    assert t[0] == prop[|prop| - |t|];
    assert UpperChar(t[0]) == s[0];
  }

  /** A whole number followed by KB, MB, GB or B is that many units, in bytes. */
  lemma SizeInUnits(prop: string, n: nat, unit: string)
    requires unit == "KB" || unit == "MB" || unit == "GB" || unit == "B"
    requires Upper(Trim(prop)) == Decimal(n) + unit
    ensures ParseSizeToBytes(Some(prop)) == ToLong(n * UnitFactor(unit))
  {
    NotBlankWhenReadable(prop, Decimal(n) + unit);
    SizeValueOfUnits(n, unit);
  }

  lemma SizeValueOfUnits(n: nat, unit: string)
    requires unit == "KB" || unit == "MB" || unit == "GB" || unit == "B"
    ensures SizeValue(Decimal(n) + unit) == Some(ToLong(n * UnitFactor(unit)))
  {
    if unit == "KB" {
      DigitsThenUnit(n, "KB", KB);
    } else if unit == "MB" {
      SizeValueInMB(n);
    } else if unit == "GB" {
      SizeValueInGB(n);
    } else {
      SizeValueInB(n);
    }
  }

  lemma SizeValueInMB(n: nat)
    ensures SizeValue(Decimal(n) + "MB") == Some(ToLong(n * MB))
  {
    var s := Decimal(n) + "MB";
    DigitsThenUnit(n, "MB", MB);
    assert s[|s| - 2..][0] == 'M';
    assert !EndsWith(s, "KB");
  }

  lemma SizeValueInGB(n: nat)
    ensures SizeValue(Decimal(n) + "GB") == Some(ToLong(n * GB))
  {
    var s := Decimal(n) + "GB";
    DigitsThenUnit(n, "GB", GB);
    assert s[|s| - 2..][0] == 'G';
    assert !EndsWith(s, "KB") && !EndsWith(s, "MB");
  }

  lemma SizeValueInB(n: nat)
    ensures SizeValue(Decimal(n) + "B") == Some(ToLong(n))
  {
    var d := Decimal(n);
    var s := d + "B";
    DigitsThenUnit(n, "B", 1);
    assert s[|s| - 2] == d[|d| - 1];
    BytesSuffix(s);
  }

  /** A value ending in a digit and then `B` is read as a plain byte count. */
  lemma BytesSuffix(s: string)
    requires |s| >= 2 && IsDigit(s[|s| - 2]) && EndsWith(s, "B")
    ensures SizeValue(s) == Scaled(RemoveAll(s, "B"), 1)
  {
    assert s[|s| - 2..][0] == s[|s| - 2];
    assert !EndsWith(s, "KB");
    assert !EndsWith(s, "MB");
    assert !EndsWith(s, "GB");
  }

  /** Digits followed by a unit end with the unit, and drop it to give their value, scaled. */
  lemma DigitsThenUnit(n: nat, unit: string, factor: nat)
    requires |unit| > 0 && !IsDigit(unit[0])
    ensures EndsWith(Decimal(n) + unit, unit)
    ensures Scaled(RemoveAll(Decimal(n) + unit, unit), factor) == Some(ToLong(n * factor))
  {
    var d := Decimal(n);
    RemoveUnit(d, unit);
    TrimNoop(d);
    DecimalValue(n);
    assert (d + unit)[|d + unit| - |unit|..] == unit;
    DigitsParse(d);
  }

  /** A bare whole number is a byte count when `Long.parseLong` accepts it, and 0 when it overflows. */
  lemma SizeInBytes(prop: string, n: nat)
    requires Upper(Trim(prop)) == Decimal(n)
    ensures ParseSizeToBytes(Some(prop)) == if n <= LONG_MAX then n else 0
  {
    var d := Decimal(n);
    NotBlankWhenReadable(prop, d);
    DecimalValue(n);
    DigitsParse(d);
    assert IsDigit(d[|d| - 1]);
    assert !EndsWith(d, "B");
    assert !EndsWith(d, "KB");
    assert !EndsWith(d, "MB");
    assert !EndsWith(d, "GB");
  }

  predicate NoDigit(s: string) {
    forall i :: 0 <= i < |s| ==> !IsDigit(s[i])
  }

  /** A value without a single digit is malformed however it ends, so there is no limit. */
  lemma NoDigitNoLimit(prop: string)
    requires NoDigit(prop)
    ensures ParseSizeToBytes(Some(prop)) == 0
  {
    if !IsBlank(prop) {
      var t := Trim(prop);
      TrimNoDigit(prop);
      NoDigitSizeValue(Upper(t));
    }
  }

  /** Trimming adds no character, so it adds no digit. */
  lemma TrimNoDigit(s: string)
    requires NoDigit(s)
    ensures NoDigit(Trim(s))
  {
    var t := TrimStart(s);
    forall i | 0 <= i < |Trim(s)| ensures !IsDigit(Trim(s)[i]) {
      assert Trim(s)[i] == t[i];
      assert t[i] == s[|s| - |t| + i];
    }
  }

  /** Without a digit no branch of the size parser finds a number. */
  lemma NoDigitSizeValue(s: string)
    requires NoDigit(s)
    ensures SizeValue(s) == None
  {
    NoDigitNoNumber(s);
    NoDigitScaled(s, "KB", KB);
    NoDigitScaled(s, "MB", MB);
    NoDigitScaled(s, "GB", GB);
    NoDigitScaled(s, "B", 1);
  }

  lemma NoDigitScaled(s: string, unit: string, factor: nat)
    requires NoDigit(s) && |unit| > 0
    ensures Scaled(RemoveAll(s, unit), factor) == None
  {
    var u := RemoveAll(s, unit);
    RemoveAllKeeps(s, unit);
    assert NoDigit(u) by {
      forall i | 0 <= i < |u| ensures !IsDigit(u[i]) {
        var j :| 0 <= j < |s| && s[j] == u[i];
      }
    }
    TrimNoDigit(u);
    NoDigitNoNumber(Trim(u));
  }

  /** A missing or blank size limit lets every file through. */
  lemma NoLimitAcceptsAll(prop: Option<string>, size: Option<int>)
    requires prop.None? || IsBlank(prop.value)
    ensures SizeWithinLimit(size, ParseSizeToBytes(prop))
  {
  }

  // ---------------------------------------------------------------- per-file filters

  /**
   * What the file system and PDFBox report about one file, as the scanner sees it.
   * An absent value stands for the IOException (or other failure) the call raises.
   */
  datatype FileProbe = FileProbe(
    path: string,                  // pdfPath.toString()
    named: bool,                   // pdfPath.getFileName() is not null; false for a file-system root
    fileName: string,              // pdfPath.getFileName().toString(), when named
    absolutePath: Option<string>,  // toAbsolutePath().normalize(); absent when that throws
    regularFile: bool,             // Files.exists and Files.isRegularFile
    hidden: Option<bool>,          // Files.isHidden
    size: Option<int>,             // Files.size
    metadata: Option<Metadata>)    // PDDocument.load and its information dictionary

  /** `hasAllowedExtension`, as a condition: the lowercased name ends with a listed extension. */
  predicate Allowed(fileName: string, allowed: seq<string>) {
    exists i :: 0 <= i < |allowed| && EndsWith(Lower(fileName), allowed[i])
  }

  /** `hasAllowedExtension`: tries each listed extension in turn. */
  method HasAllowedExtension(fileName: string, allowed: seq<string>) returns (r: bool)
    ensures r <==> Allowed(fileName, allowed)
  {
    var name := Lower(fileName);
    for i := 0 to |allowed|
      invariant forall j :: 0 <= j < i ==> !EndsWith(name, allowed[j])
    {
      if EndsWith(name, allowed[i]) {
        return true;
      }
    }
    return false;
  }

  /** The extension test ignores the case of the file name. */
  lemma AllowedIgnoresCase(fileName: string, allowed: seq<string>)
    ensures Allowed(fileName, allowed) <==> Allowed(Lower(fileName), allowed)
  {
    LowerCaseFixed(Lower(fileName));
    LowerCaseFixed(fileName);
    assert Lower(Lower(fileName)) == Lower(fileName);
  }

  /** `sizeWithinLimit`: no limit at or below 0; otherwise a readable size not above it. */
  function SizeWithinLimit(size: Option<int>, maxBytes: int): (r: bool)
    ensures maxBytes <= 0 ==> r
    ensures maxBytes > 0 ==> (r <==> size.Some? && size.value <= maxBytes)
  {
    if maxBytes <= 0 then true
    else match size
      case None => false
      case Some(n) => n <= maxBytes
  }

  /**
   * `isHiddenPath`: hidden for the file system, or a name starting with a dot; false
   * when `Files.isHidden` throws its (caught) `IOException`. A path that is not hidden
   * for the file system and has no name makes `getFileName().toString()` throw a
   * `NullPointerException`, which the `catch` does not cover.
   */
  function IsHiddenPath(hidden: Option<bool>, named: bool, fileName: string): (r: Result<bool>)
    ensures hidden.None? ==> r == Ok(false)
    ensures hidden == Some(true) ==> r == Ok(true)
    ensures hidden == Some(false) ==> (r.Err? <==> !named) && (r.Err? ==> r.failure == NullName)
    ensures hidden == Some(false) && named ==> (r == Ok(true) <==> StartsWith(fileName, "."))
  {
    match hidden
    case None => Ok(false)
    case Some(h) => if h then Ok(true) else if !named then Err(NullName) else Ok(StartsWith(fileName, "."))
  }

  // ---------------------------------------------------------------- resolve step

  /**
   * `generateStableFileId`: the hexadecimal `hashCode` of the normalised absolute
   * path, or of the path as given when normalising fails. `hashCode` stands for
   * `String.hashCode`.
   */
  function StableFileId(probe: FileProbe, hashCode: string -> int): (r: string)
    ensures 1 <= |r| <= 8
  {
    ToHexString(hashCode(probe.absolutePath.GetOr(probe.path)))
  }

  /** The characters after which `$` also matches: a final line terminator. */
  predicate LineTerminator(c: char) {
    c == '\n' || c == '\r' || c == '\U{85}' || c == '\U{2028}' || c == '\U{2029}'
  }

  /**
   * `fileName.replaceAll("\\.pdf$", "")`: drops a lowercase ".pdf" that ends the
   * name, or that stands just before a final line terminator (or a final "\r\n").
   */
  function StripPdfExtension(name: string): (r: string)
    ensures EndsWith(name, DEFAULT_EXTENSION) ==> r == name[..|name| - 4]
    ensures !EndsWith(name, DEFAULT_EXTENSION) && (|name| == 0 || !LineTerminator(name[|name| - 1])) ==> r == name
  {
    var n := |name|;
    if EndsWith(name, DEFAULT_EXTENSION) then name[..n - 4]
    else if n >= 6 && name[n - 2..] == "\r\n" && name[n - 6..n - 2] == DEFAULT_EXTENSION then name[..n - 6] + "\r\n"
    else if n >= 5 && LineTerminator(name[n - 1]) && !(name[n - 1] == '\n' && name[n - 2] == '\r')
      && name[n - 5..n - 1] == DEFAULT_EXTENSION then name[..n - 5] + [name[n - 1]]
    else name
  }

  /** The saved title: the metadata title unless it is missing or blank after trim. */
  function TitleFor(title: Option<string>, fileName: string): (r: string)
    ensures title.Some? && !IsTrimEmpty(title.value) ==> r == title.value
    ensures title.None? || IsTrimEmpty(title.value) ==> r == StripPdfExtension(fileName)
  {
    if title.None? || IsTrimEmpty(title.value) then StripPdfExtension(fileName) else title.value
  }

  /** The saved author: "Unknown" when the metadata has none. */
  function AuthorFor(author: Option<string>): (r: string)
    ensures author.Some? ==> r == author.value
    ensures author.None? ==> r == "Unknown"
  {
    author.GetOr("Unknown")
  }

  /** The record `saveNewPdf` and `refreshAndSavePdf` build; both instants are `now`. */
  function Assemble(id: Option<string>, probe: FileProbe, size: int, meta: Metadata, now: int): (d: PdfDocument)
    ensures d.id == id && d.fileName == probe.fileName && d.filePath == probe.path && d.fileSize == size
    ensures d.pageCount == meta.pageCount && d.subject == meta.subject && d.keywords == meta.keywords
    ensures d.title == Some(TitleFor(meta.title, probe.fileName)) && d.author == Some(AuthorFor(meta.author))
    ensures d.createdAt == now && d.modifiedAt == now
  {
    PdfDocument(id, probe.fileName, probe.path, size, meta.pageCount,
      Some(TitleFor(meta.title, probe.fileName)), Some(AuthorFor(meta.author)),
      meta.subject, meta.keywords, now, now)
  }

  /** `found` is an answer `findByFilePath(path)` may give on `catalog`. */
  ghost predicate FoundBy(catalog: map<string, PdfDocument>, path: string, found: Option<PdfDocument>) {
    (found.Some? ==> found.value.filePath == path && exists k :: k in catalog && catalog[k] == found.value)
    && (found.None? ==> forall k :: k in catalog ==> catalog[k].filePath != path)
  }

  /**
   * The catalogue after `processPdfFile`, given the entry the path lookup returned:
   * a new path is saved under its stable id, an entry of the same size is left alone,
   * and an entry of another size is refreshed under its own id. A file that is gone,
   * whose size cannot be read, that PDFBox cannot load, or whose entry has no id
   * (saving it throws) leaves the catalogue as it was.
   */
  function Resolve(catalog: map<string, PdfDocument>, probe: FileProbe, found: Option<PdfDocument>,
                   hashCode: string -> int, now: int): map<string, PdfDocument>
  {
    if !probe.regularFile || probe.size.None? then catalog
    else match found
      case None =>
        if probe.metadata.None? then catalog
        else
          var id := StableFileId(probe, hashCode);
          catalog[id := Assemble(Some(id), probe, probe.size.value, probe.metadata.value, now)]
      case Some(e) =>
        if e.fileSize == probe.size.value || probe.metadata.None? || e.id.None? then catalog
        else catalog[e.id.value := Assemble(e.id, probe, probe.size.value, probe.metadata.value, now)]
  }

  /** A path not yet catalogued adds exactly one entry, under the path's stable id. */
  lemma ResolveNew(catalog: map<string, PdfDocument>, probe: FileProbe, hashCode: string -> int, now: int)
    requires probe.regularFile && probe.size.Some? && probe.metadata.Some?
    requires FoundBy(catalog, probe.path, None)
    ensures var r := Resolve(catalog, probe, None, hashCode, now);
      var id := StableFileId(probe, hashCode);
      && r.Keys == catalog.Keys + {id}
      && r[id].filePath == probe.path && r[id].id == Some(id)
      && forall k :: k in catalog && k != id ==> r[k] == catalog[k]
  {
  }

  /** Rescanning a catalogued file whose size has not changed saves nothing. */
  lemma ResolveUnchanged(catalog: map<string, PdfDocument>, probe: FileProbe, e: PdfDocument,
                         hashCode: string -> int, now: int)
    requires probe.size == Some(e.fileSize)
    ensures Resolve(catalog, probe, Some(e), hashCode, now) == catalog
  {
  }

  /** A size change re-files the entry under its own id: no key is added or removed. */
  lemma ResolveChangedKeepsKeys(catalog: map<string, PdfDocument>, probe: FileProbe, e: PdfDocument,
                                hashCode: string -> int, now: int)
    requires FiledById(catalog) && FoundBy(catalog, probe.path, Some(e))
    ensures Resolve(catalog, probe, Some(e), hashCode, now).Keys == catalog.Keys
  {
    var k :| k in catalog && catalog[k] == e;
    assert e.id == Some(k);
  }

  /** The resolve step never removes an entry and keeps every entry filed under its id. */
  lemma ResolveGrows(catalog: map<string, PdfDocument>, probe: FileProbe, found: Option<PdfDocument>,
                     hashCode: string -> int, now: int)
    requires FiledById(catalog)
    ensures var r := Resolve(catalog, probe, found, hashCode, now);
      catalog.Keys <= r.Keys && FiledById(r)
  {
  }

  /**
   * Nothing `processPdfFile` could do to `probe` changes `catalog`: the file is gone
   * or unreadable, or every entry at its path already has its size and one exists.
   */
  ghost predicate Settled(catalog: map<string, PdfDocument>, probe: FileProbe) {
    !probe.regularFile || probe.size.None?
    || ((exists k :: k in catalog && catalog[k].filePath == probe.path)
        && forall k :: k in catalog && catalog[k].filePath == probe.path ==> Some(catalog[k].fileSize) == probe.size)
  }

  /** A settled file resolves to the catalogue as it was, whichever entry the lookup returns. */
  lemma ResolveSettled(catalog: map<string, PdfDocument>, probe: FileProbe, found: Option<PdfDocument>,
                       hashCode: string -> int, now: int)
    requires Settled(catalog, probe)
    requires probe.regularFile && probe.size.Some? ==> FoundBy(catalog, probe.path, found)
    ensures Resolve(catalog, probe, found, hashCode, now) == catalog
  {
    if probe.regularFile && probe.size.Some? {
      if found.None? {
        assert false;
      }
    }
  }

  /**
   * The catalogue after the resolve steps of `files`, one after another, the lookup of
   * the i-th file answering `founds[i]`.
   */
  function ResolveAll(catalog: map<string, PdfDocument>, files: seq<FileProbe>, founds: seq<Option<PdfDocument>>,
                      hashCode: string -> int, now: int): map<string, PdfDocument>
    requires |founds| == |files|
    decreases |files|
  {
    if |files| == 0 then catalog
    else
      var n := |files| - 1;
      Resolve(ResolveAll(catalog, files[..n], founds[..n], hashCode, now), files[n], founds[n], hashCode, now)
  }

  /** Each lookup answered what `findByFilePath` may return on the catalogue as it stood at that step. */
  ghost predicate LookupsFaithful(catalog: map<string, PdfDocument>, files: seq<FileProbe>,
                                  founds: seq<Option<PdfDocument>>, hashCode: string -> int, now: int)
    requires |founds| == |files|
    decreases |files|
  {
    |files| == 0 ||
    var n := |files| - 1;
    && LookupsFaithful(catalog, files[..n], founds[..n], hashCode, now)
    && (files[n].regularFile && files[n].size.Some? ==>
          FoundBy(ResolveAll(catalog, files[..n], founds[..n], hashCode, now), files[n].path, founds[n]))
  }

  /** Resolving files one after another never removes an entry and keeps every entry filed under its id. */
  lemma {:induction false} ResolveAllGrows(catalog: map<string, PdfDocument>, files: seq<FileProbe>,
                                           founds: seq<Option<PdfDocument>>, hashCode: string -> int, now: int)
    requires |founds| == |files| && FiledById(catalog)
    ensures var r := ResolveAll(catalog, files, founds, hashCode, now);
      catalog.Keys <= r.Keys && FiledById(r)
    decreases |files|
  {
    if |files| > 0 {
      var n := |files| - 1;
      ResolveAllGrows(catalog, files[..n], founds[..n], hashCode, now);
      ResolveGrows(ResolveAll(catalog, files[..n], founds[..n], hashCode, now), files[n], founds[n], hashCode, now);
    }
  }

  /** When every file is settled in the catalogue, resolving them all in turn changes nothing. */
  lemma {:induction false} ResolveAllSettled(catalog: map<string, PdfDocument>, files: seq<FileProbe>,
                                             founds: seq<Option<PdfDocument>>, hashCode: string -> int, now: int)
    requires |founds| == |files|
    requires LookupsFaithful(catalog, files, founds, hashCode, now)
    requires forall p :: p in files ==> Settled(catalog, p)
    ensures ResolveAll(catalog, files, founds, hashCode, now) == catalog
    decreases |files|
  {
    if |files| > 0 {
      var n := |files| - 1;
      assert forall p :: p in files[..n] ==> p in files;
      ResolveAllSettled(catalog, files[..n], founds[..n], hashCode, now);
      assert files[n] in files;
      ResolveSettled(catalog, files[n], founds[n], hashCode, now);
    }
  }

  /** The filters a folder scan applies, in the order of `Files.walk`. */
  predicate Kept(probe: FileProbe, ignoreHidden: bool, allowed: seq<string>, maxBytes: int) {
    (!ignoreHidden || IsHiddenPath(probe.hidden, probe.named, probe.fileName) == Ok(false))
    && probe.regularFile
    && probe.named
    && Allowed(probe.fileName, allowed)
    && SizeWithinLimit(probe.size, maxBytes)
  }

  /**
   * The filters throw on `probe`: the hidden check meets a path without a name, or a
   * regular file without a name reaches `hasAllowedExtension`'s `getFileName()`.
   */
  predicate FilterThrows(probe: FileProbe, ignoreHidden: bool) {
    if ignoreHidden && IsHiddenPath(probe.hidden, probe.named, probe.fileName).Err? then true
    else if ignoreHidden && IsHiddenPath(probe.hidden, probe.named, probe.fileName) == Ok(true) then false
    else probe.regularFile && !probe.named
  }

  /** Some entry of a walk makes the filters throw, which ends the stream before `collect` returns. */
  predicate ThrowsIn(files: seq<FileProbe>, ignoreHidden: bool) {
    exists p :: p in files && FilterThrows(p, ignoreHidden)
  }

  /**
   * `Files.walk` yields the folder itself first. For a file-system root, which has no
   * name, `isHidden` is false, so with the hidden filter on the whole scan throws.
   */
  lemma RootFolderThrows(root: FileProbe, rest: seq<FileProbe>)
    requires !root.named && root.hidden == Some(false)
    ensures ThrowsIn([root] + rest, true)
    ensures !ThrowsIn([root] + rest, false) <==> !root.regularFile && !ThrowsIn(rest, false)
  {
    assert root in [root] + rest;
    assert forall p :: p in [root] + rest <==> p == root || p in rest;
  }

  /** The files of a walk that a scan processes, in walk order. */
  function Selected(files: seq<FileProbe>, ignoreHidden: bool, allowed: seq<string>, maxBytes: int): (r: seq<FileProbe>)
    ensures |r| <= |files|
    ensures forall p :: p in r <==> p in files && Kept(p, ignoreHidden, allowed, maxBytes)
  {
    if |files| == 0 then []
    else
      var rest := Selected(files[1..], ignoreHidden, allowed, maxBytes);
      assert forall p :: p in files <==> p == files[0] || p in files[1..];
      if Kept(files[0], ignoreHidden, allowed, maxBytes) then [files[0]] + rest else rest
  }

  // ---------------------------------------------------------------- the service

  /** Whether `scanExecutor` is null, running, or shut down. */
  datatype ExecutorState = NoExecutor | Running | ShutDown

  /** What `Files.walk` of a folder, collected into a list, gives. */
  datatype Walk =
    | Walked(files: seq<FileProbe>)   // every entry of the tree, in walk order
    | OpenFails                       // Files.walk throws an IOException before the stream opens
    | TraversalFails(yielded: seq<FileProbe>)  // the stream throws an UncheckedIOException after these entries

  /** What probing the chosen folder reports. */
  datatype FolderProbe = FolderProbe(
    isDirectory: bool,                // Files.exists and Files.isDirectory
    walk: Walk,                       // Files.walk of the folder
    watchable: bool)                  // the watch service could be registered

  /** `PdfFolderScannerService`, with the configuration it is given at start-up. */
  class PdfFolderScannerService {
    const repository: FilePdfDocumentRepository
    const hashCode: string -> int
    const allowedExtensionsProp: Option<string>
    const maxFileSizeProp: Option<string>
    const ignoreHidden: bool
    var scanExecutor: ExecutorState
    var watchedFolder: Option<string>
    var isScanning: bool

    constructor (repository: FilePdfDocumentRepository, hashCode: string -> int,
                 allowedExtensionsProp: Option<string>, maxFileSizeProp: Option<string>, ignoreHidden: bool)
      ensures this.repository == repository && this.hashCode == hashCode
      ensures this.allowedExtensionsProp == allowedExtensionsProp && this.maxFileSizeProp == maxFileSizeProp
      ensures this.ignoreHidden == ignoreHidden
      ensures scanExecutor == NoExecutor && watchedFolder == None && !isScanning
    {
      this.repository := repository;
      this.hashCode := hashCode;
      this.allowedExtensionsProp := allowedExtensionsProp;
      this.maxFileSizeProp := maxFileSizeProp;
      this.ignoreHidden := ignoreHidden;
      scanExecutor := NoExecutor;
      watchedFolder := None;
      isScanning := false;
    }

    /** `isScanning()`: the flag is set and a folder is being watched. */
    function IsScanning(): (r: bool)
      reads this
      ensures r ==> isScanning && GetWatchedFolderPath().Some?
      ensures isScanning && GetWatchedFolderPath().Some? ==> r
    {
      isScanning && watchedFolder.Some?
    }

    /** `getWatchedFolderPath` */
    function GetWatchedFolderPath(): (r: Option<string>)
      reads this
      ensures r == watchedFolder
    {
      watchedFolder
    }

    /** `stopScanning`: clears the flag and shuts a running scan pool down. */
    method StopScanning()
      modifies this`isScanning, this`scanExecutor
      ensures !isScanning && !IsScanning()
      ensures scanExecutor == (if old(scanExecutor) == Running then ShutDown else old(scanExecutor))
    {
      isScanning := false;
      if scanExecutor == Running {
        scanExecutor := ShutDown;
      }
    }

    /** The files a scan of `walk` processes, under the configured filters. */
    function ScanFiles(walk: seq<FileProbe>): (r: seq<FileProbe>)
      ensures forall p :: p in r <==> p in walk && Kept(p, ignoreHidden, ParseExtensions(allowedExtensionsProp),
                                                          ParseSizeToBytes(maxFileSizeProp))
    {
      Selected(walk, ignoreHidden, ParseExtensions(allowedExtensionsProp), ParseSizeToBytes(maxFileSizeProp))
    }

    /**
     * How collecting `walk` fails, if it does: an entry the filters throw on ends the
     * stream with a `NullPointerException`, and a walk that breaks off part-way with an
     * `UncheckedIOException` once the entries before the break pass the filters.
     */
    function ScanError(walk: Walk): Option<Failure>
      reads this
    {
      match walk
      case OpenFails => None
      case TraversalFails(yielded) => Some(if ThrowsIn(yielded, ignoreHidden) then NullName else WalkFailure)
      case Walked(files) => if ThrowsIn(files, ignoreHidden) then Some(NullName) else None
    }

    /**
     * Scanning a file-system root with hidden files ignored always fails, whatever the
     * rest of the walk holds: the root comes first and has no name.
     */
    lemma RootScanFails(root: FileProbe, rest: seq<FileProbe>)
      requires ignoreHidden && !root.named && root.hidden == Some(false)
      ensures ScanError(Walked([root] + rest)) == Some(NullName)
      ensures ScanError(TraversalFails([root] + rest)) == Some(NullName)
    {
      RootFolderThrows(root, rest);
    }

    /** Every file a scan of `files` would keep is settled in `catalog`. */
    ghost predicate AllSettled(catalog: map<string, PdfDocument>, files: seq<FileProbe>) {
      forall p :: p in ScanFiles(files) ==> Settled(catalog, p)
    }

    /**
     * What one run of `scanFolderForPdfs` leaves, from catalogue `before` to `after`:
     * nothing changes without a folder or when `Files.walk` throws its (caught)
     * `IOException`; a walk that fails part-way, or an entry the filters throw on,
     * throws past the `catch` and saves nothing; when files are kept but
     * the scan pool is null (or shut down) the first submission throws and nothing is
     * saved; otherwise each kept file is resolved in walk order, the lookup of the i-th
     * answering `founds[i]`.
     */
    ghost predicate Scanned(before: map<string, PdfDocument>, after: map<string, PdfDocument>,
                            walk: Walk, now: int, o: Outcome, founds: seq<Option<PdfDocument>>)
      reads this
    {
      if watchedFolder.None? || walk.OpenFails? then o == Done && after == before
      else if ScanError(walk).Some? then o == Failed(ScanError(walk).value) && after == before
      else
        var files := ScanFiles(walk.files);
        if scanExecutor != Running && |files| > 0 then
          o == Failed(if scanExecutor == NoExecutor then NullExecutor else Rejected) && after == before
        else
          && o == Done && |founds| == |files|
          && LookupsFaithful(before, files, founds, hashCode, now)
          && after == ResolveAll(before, files, founds, hashCode, now)
    }

    /** `processPdfFile`: the resolve step, with `findByFilePath`'s answer returned as `found`. */
    method ProcessPdfFile(probe: FileProbe, now: int) returns (ghost found: Option<PdfDocument>)
      requires repository.Valid()
      modifies repository
      ensures repository.Valid()
      ensures probe.regularFile && probe.size.Some? ==> FoundBy(old(repository.documentCache), probe.path, found)
      ensures repository.documentCache == Resolve(old(repository.documentCache), probe, found, hashCode, now)
    {
      found := None;
      if !probe.regularFile {
        return;
      }
      var fileId := StableFileId(probe, hashCode);
      if probe.size.None? {
        return;
      }
      var existing := repository.FindByFilePath(probe.path);
      found := existing;
      if existing.Some? {
        if existing.value.fileSize != probe.size.value {
          RefreshAndSavePdf(existing.value.id, probe, now);
        }
        return;
      }
      SaveNewPdf(fileId, probe, now);
    }

    /** `saveNewPdf`: files a new record under `fileId`; a file PDFBox cannot load is skipped. */
    method SaveNewPdf(fileId: string, probe: FileProbe, now: int)
      requires repository.Valid() && probe.size.Some?
      modifies repository
      ensures repository.Valid()
      ensures probe.metadata.None? ==> repository.documentCache == old(repository.documentCache)
      ensures probe.metadata.Some? ==> (repository.documentCache ==
        old(repository.documentCache)[fileId := Assemble(Some(fileId), probe, probe.size.value, probe.metadata.value, now)])
    {
      if probe.metadata.None? {
        return;
      }
      var d := Assemble(Some(fileId), probe, probe.size.value, probe.metadata.value, now);
      var _ := repository.Save(d);
    }

    /** `refreshAndSavePdf`: re-files the record under the existing id; a null id makes the save throw. */
    method RefreshAndSavePdf(id: Option<string>, probe: FileProbe, now: int)
      requires repository.Valid() && probe.size.Some?
      modifies repository
      ensures repository.Valid()
      ensures probe.metadata.None? || id.None? ==> repository.documentCache == old(repository.documentCache)
      ensures probe.metadata.Some? && id.Some? ==> (repository.documentCache ==
        old(repository.documentCache)[id.value := Assemble(id, probe, probe.size.value, probe.metadata.value, now)])
    {
      if probe.metadata.None? {
        return;
      }
      var d := Assemble(id, probe, probe.size.value, probe.metadata.value, now);
      var _ := repository.Save(d);
    }

    /**
     * `scanFolderForPdfs`: walks the watched folder and hands every file the filters
     * keep to the scan pool, which processes them (here one after another, in walk
     * order). No entry is ever removed, and when every kept file is settled the
     * catalogue does not change.
     */
    method ScanFolderForPdfs(walk: Walk, now: int) returns (o: Outcome, ghost founds: seq<Option<PdfDocument>>)
      requires repository.Valid()
      modifies repository
      ensures repository.Valid()
      ensures Scanned(old(repository.documentCache), repository.documentCache, walk, now, o, founds)
      ensures old(repository.documentCache).Keys <= repository.documentCache.Keys
      ensures walk.Walked? && AllSettled(old(repository.documentCache), walk.files) ==>
        repository.documentCache == old(repository.documentCache)
    {
      founds := [];
      if watchedFolder.None? || walk.OpenFails? {
        return Done, founds;
      }
      var error := ScanError(walk);
      if error.Some? {
        return Failed(error.value), founds;
      }
      var maxSizeBytes := ParseSizeToBytes(maxFileSizeProp);
      var allowedExts := ParseExtensions(allowedExtensionsProp);
      var files := Selected(walk.files, ignoreHidden, allowedExts, maxSizeBytes);
      if scanExecutor != Running && |files| > 0 {
        return Failed(if scanExecutor == NoExecutor then NullExecutor else Rejected), founds;
      }
      for i := 0 to |files|
        invariant repository.Valid()
        invariant |founds| == i
        invariant LookupsFaithful(old(repository.documentCache), files[..i], founds, hashCode, now)
        invariant repository.documentCache == ResolveAll(old(repository.documentCache), files[..i], founds, hashCode, now)
      {
        ghost var found := ProcessPdfFile(files[i], now);
        assert files[..i + 1][..i] == files[..i];
        assert (founds + [found])[..i] == founds;
        founds := founds + [found];
      }
      assert files[..|files|] == files;
      ResolveAllGrows(old(repository.documentCache), files, founds, hashCode, now);
      if AllSettled(old(repository.documentCache), walk.files) {
        ResolveAllSettled(old(repository.documentCache), files, founds, hashCode, now);
      }
      o := Done;
    }

    /**
     * `setMasterFolder`, run to completion: stops any scan, then records the folder as
     * `Paths.get` parses it (`parsePath`, absent when it throws `InvalidPathException`,
     * which leaves the previous folder recorded). A folder that is missing or not a
     * directory fails; otherwise the scan pool is (re)created and the folder scanned; a
     * scan that throws ends the call before monitoring starts, and otherwise the flag is
     * set once the folder is being watched.
     */
    method SetMasterFolder(folderPath: string, parsePath: string -> Option<string>, folder: FolderProbe, now: int)
      returns (o: Outcome, ghost founds: seq<Option<PdfDocument>>)
      requires repository.Valid()
      modifies this`isScanning, this`scanExecutor, this`watchedFolder, repository
      ensures repository.Valid()
      ensures parsePath(folderPath).None? ==>
        && o == Failed(InvalidPath) && !IsScanning() && watchedFolder == old(watchedFolder)
        && scanExecutor == (if old(scanExecutor) == Running then ShutDown else old(scanExecutor))
        && repository.documentCache == old(repository.documentCache)
      ensures parsePath(folderPath).Some? ==> watchedFolder == parsePath(folderPath)
      ensures parsePath(folderPath).Some? && !folder.isDirectory ==>
        && o == Failed(InvalidFolder) && !IsScanning()
        && scanExecutor == (if old(scanExecutor) == Running then ShutDown else old(scanExecutor))
        && repository.documentCache == old(repository.documentCache)
      ensures parsePath(folderPath).Some? && folder.isDirectory ==> scanExecutor == Running
      ensures parsePath(folderPath).Some? && folder.isDirectory && ScanError(folder.walk).Some? ==>
        o == Failed(ScanError(folder.walk).value) && !IsScanning()
        && repository.documentCache == old(repository.documentCache)
      ensures parsePath(folderPath).Some? && folder.isDirectory && ScanError(folder.walk).None? ==>
        o == Done && (IsScanning() <==> folder.watchable)
      ensures parsePath(folderPath).Some? && folder.isDirectory && folder.walk.OpenFails? ==>
        repository.documentCache == old(repository.documentCache)
      ensures parsePath(folderPath).Some? && folder.isDirectory && folder.walk.Walked? && ScanError(folder.walk).None? ==>
        var files := ScanFiles(folder.walk.files);
        && |founds| == |files|
        && LookupsFaithful(old(repository.documentCache), files, founds, hashCode, now)
        && repository.documentCache == ResolveAll(old(repository.documentCache), files, founds, hashCode, now)
      ensures old(repository.documentCache).Keys <= repository.documentCache.Keys
    {
      StopScanning();
      founds := [];
      var parsed := parsePath(folderPath);
      if parsed.None? {
        return Failed(InvalidPath), founds;
      }
      watchedFolder := parsed;
      if !folder.isDirectory {
        return Failed(InvalidFolder), founds;
      }
      if scanExecutor != Running {
        scanExecutor := Running;
      }
      var scanned, found := ScanFolderForPdfs(folder.walk, now);
      founds := found;
      if scanned.Failed? {
        return scanned, founds;
      }
      if folder.watchable {
        isScanning := true;
      }
      return Done, founds;
    }

    /**
     * `rescanFolder`: a scan submitted to the scan pool, or to a fresh single-thread
     * executor when there is none. A pool that `stopScanning` shut down rejects the
     * submission and nothing is scanned; without a pool the scan itself hands its files
     * to the null pool, so it fails as soon as it keeps a file.
     */
    method RescanFolder(walk: Walk, now: int) returns (o: Outcome, ghost founds: seq<Option<PdfDocument>>)
      requires repository.Valid()
      modifies repository
      ensures repository.Valid()
      ensures scanExecutor == ShutDown ==> o == Failed(Rejected) && repository.documentCache == old(repository.documentCache)
      ensures scanExecutor != ShutDown ==> Scanned(old(repository.documentCache), repository.documentCache, walk, now, o, founds)
      ensures scanExecutor == NoExecutor && watchedFolder.Some? && walk.Walked? && ScanError(walk).None? && |ScanFiles(walk.files)| > 0 ==>
        o == Failed(NullExecutor) && repository.documentCache == old(repository.documentCache)
      ensures old(repository.documentCache).Keys <= repository.documentCache.Keys
    {
      founds := [];
      if scanExecutor == ShutDown {
        return Failed(Rejected), founds;
      }
      o, founds := ScanFolderForPdfs(walk, now);
    }

    /**
     * A change reported by the watch service: only the extension is checked (not the
     * hidden or size filters) before the file is processed.
     */
    method OnFolderEvent(probe: FileProbe, now: int) returns (ghost found: Option<PdfDocument>)
      requires repository.Valid()
      modifies repository
      ensures repository.Valid()
      ensures !Allowed(probe.fileName, ParseExtensions(allowedExtensionsProp)) ==> repository.documentCache == old(repository.documentCache)
      ensures Allowed(probe.fileName, ParseExtensions(allowedExtensionsProp)) ==>
        (probe.regularFile && probe.size.Some? ==> FoundBy(old(repository.documentCache), probe.path, found))
        && repository.documentCache == Resolve(old(repository.documentCache), probe, found, hashCode, now)
    {
      found := None;
      var allowed := HasAllowedExtension(probe.fileName, ParseExtensions(allowedExtensionsProp));
      if allowed {
        found := ProcessPdfFile(probe, now);
      }
    }

    /** `getAllPdfs`: the repository's `findAll`. */
    method GetAllPdfs() returns (ghost ids: seq<string>, r: seq<PdfDocument>)
      ensures Visits(repository.documentCache, Any, ids)
      ensures forall i :: 0 <= i < |ids| ==> ids[i] in repository.documentCache
      ensures r == ValuesAt(repository.documentCache, ids)
    {
      ids, r := repository.FindAll();
    }
  }
}
