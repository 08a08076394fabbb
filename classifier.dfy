/** Where a file goes: `OrganizerCore.get_destination`, the Pro organizer's
    `_get_destination_folder` with its three modes, the basic organizer's
    category-or-date switch, and the rule tables the three front-ends ship. */
module Classifier {
  import opened Basics
  import opened Format
  import opened Paths
  import opened Disks

  /** One entry of a categories dictionary: a folder name and the extensions
      (with their leading dot) that go there. */
  datatype Rule = Rule(category: string, exts: seq<string>)

  /** A categories dictionary, in insertion order. */
  type Table = seq<Rule>

  /** The first-match lookup: the category of the first rule, in table order,
      listing `ext`; "Others" when none does. Extensions are compared exactly. */
  function CategoryOf(table: Table, ext: string): (c: string)
    ensures (forall i :: 0 <= i < |table| ==> ext !in table[i].exts) ==> c == "Others"
    ensures forall i :: (0 <= i < |table| && ext in table[i].exts
                         && forall j :: 0 <= j < i ==> ext !in table[j].exts) ==> c == table[i].category
    ensures c == "Others" || exists i :: 0 <= i < |table| && table[i].category == c
  {
    if table == [] then "Others"
    else if ext in table[0].exts then table[0].category
    else
      var c := CategoryOf(table[1..], ext);
      assert forall i :: 1 <= i < |table| ==> table[1..][i - 1] == table[i];
      c
  }

  /** `get_destination(filename, categories)`: the first-match category of the
      lowercased `Path(filename).suffix`. */
  function GetDestination(filename: string, table: Table): (c: string)
    ensures c == "Others" || exists i :: 0 <= i < |table| && table[i].category == c
  {
    CategoryOf(table, Lower(Suffix(filename)))
  }

  /** A rule written with upper-case extensions never matches a file, since the
      file's extension is lowercased before the comparison. */
  lemma UppercaseRuleNeverMatches(filename: string, table: Table, i: nat)
    requires i < |table| && forall e :: e in table[i].exts ==> HasUpper(e)
    ensures Lower(Suffix(filename)) !in table[i].exts
  {
    forall e | e in table[i].exts
      ensures Lower(Suffix(filename)) != e
    {
      assert HasUpper(e) && !HasUpper(Lower(Suffix(filename)));
    }
  }

  // ---------------------------------------------------------------------------
  // size and date modes

  const SizeTierNames: seq<string> :=
    ["Small (< 1MB)", "Medium (1-10MB)", "Large (10-100MB)", "Very Large (> 100MB)"]

  /** The upper bounds, exclusive, of the first three tiers: 1, 10 and 100 MiB. */
  const SizeTierBounds: seq<nat> := [1024 * 1024, 10 * 1024 * 1024, 100 * 1024 * 1024]

  /** The tier a size falls in: sizes from the previous bound up to, but not
      including, the tier's own bound. */
  function SizeTier(size: nat): (t: nat)
    ensures t < 4
    ensures 0 < t ==> SizeTierBounds[t - 1] <= size
    ensures t < 3 ==> size < SizeTierBounds[t]
  {
    if size < 1024 * 1024 then 0
    else if size < 10 * 1024 * 1024 then 1
    else if size < 100 * 1024 * 1024 then 2
    else 3
  }

  /** Bigger files never land in a smaller tier. */
  lemma SizeTierMonotone(a: nat, b: nat)
    requires a <= b
    ensures SizeTier(a) <= SizeTier(b)
  {
  }

  /** The size-mode folder name: the name of the tier whose bounds enclose
      the size. */
  function SizeBucket(size: nat): (b: string)
    ensures b in SizeTierNames && b == SizeTierNames[SizeTier(size)]
    ensures forall k :: 0 <= k < 4 ==>
              (b == SizeTierNames[k] <==>
                 (k == 0 || SizeTierBounds[k - 1] <= size) && (k == 3 || size < SizeTierBounds[k]))
  {
    SizeTierNames[SizeTier(size)]
  }

  /** `strftime("%Y-%m")` of a modification time: four-digit year, a dash,
      two-digit month. */
  function DateBucket(year: Year, month: Month): (b: string)
    ensures |b| == 7 && b[4] == '-'
    ensures forall k :: 0 <= k < 4 ==> IsDigit(b[k])
    ensures forall k :: 5 <= k < 7 ==> IsDigit(b[k])
  {
    NatToStringWidth(year, 4);
    NatToStringWidth(month, 2);
    PadNumber(year, 4) + "-" + PadNumber(month, 2)
  }

  /** A date folder name reads back as the year and month it was made from. */
  lemma DateBucketRoundTrip(year: Year, month: Month)
    ensures ParseDecimal(DateBucket(year, month)[..4]) == year
    ensures ParseDecimal(DateBucket(year, month)[5..]) == month
  {
    NatToStringWidth(year, 4);
    NatToStringWidth(month, 2);
    ConcatParts(PadNumber(year, 4), "-", PadNumber(month, 2));
    PadNumberRoundTrip(year, 4);
    PadNumberRoundTrip(month, 2);
  }

  /** `FileOrganizerPro._get_destination_folder`: category mode looks the
      (already lowercased) extension up first-match, date mode renders the
      modification year and month, size mode picks the tier, and any other mode
      gives "Others". */
  function ProDestination(mode: string, table: Table, ext: string, size: nat,
                          year: Year, month: Month): (r: string)
    ensures mode == "category" ==> r == CategoryOf(table, ext)
    ensures mode == "date" ==> r == DateBucket(year, month)
    ensures mode == "size" ==> r in SizeTierNames && r == SizeBucket(size)
    ensures mode != "category" && mode != "date" && mode != "size" ==> r == "Others"
  {
    if mode == "category" then CategoryOf(table, ext)
    else if mode == "date" then DateBucket(year, month)
    else if mode == "size" then SizeBucket(size)
    else "Others"
  }

  /** The basic organizer: `_get_category_folder` in category mode, the date
      folder in every other mode. */
  function BasicDestination(mode: string, table: Table, ext: string,
                            year: Year, month: Month): (r: string)
    ensures mode == "category" ==> r == CategoryOf(table, ext)
    ensures mode != "category" ==> |r| == 7 && r[4] == '-' && r == DateBucket(year, month)
  {
    if mode == "category" then CategoryOf(table, ext) else DateBucket(year, month)
  }

  // ---------------------------------------------------------------------------
  // tables

  /** `DEFAULT_CATEGORIES` of the Pro and basic organizers (the two are equal). */
  const DefaultCategories: Table := [
    Rule("Images", [".jpg", ".jpeg", ".png", ".gif", ".bmp", ".svg", ".ico", ".webp", ".tiff"]),
    Rule("Videos", [".mp4", ".avi", ".mkv", ".mov", ".wmv", ".flv", ".webm", ".m4v"]),
    Rule("Audio", [".mp3", ".wav", ".flac", ".aac", ".ogg", ".wma", ".m4a"]),
    Rule("Documents", [".pdf", ".doc", ".docx", ".txt", ".rtf", ".odt", ".xls", ".xlsx", ".ppt", ".pptx"]),
    Rule("Archives", [".zip", ".rar", ".7z", ".tar", ".gz", ".bz2", ".xz"]),
    Rule("Code", [".py", ".java", ".cpp", ".c", ".js", ".html", ".css", ".php", ".rb", ".go", ".rs"]),
    Rule("Executables", [".exe", ".msi", ".bat", ".sh", ".app", ".deb", ".rpm"]),
    Rule("Others", [])
  ]

  /** `DEFAULT_CATEGORIES` of the Ultimate organizer. */
  const UltimateCategories: Table := [
    Rule("Images", [".jpg", ".jpeg", ".png", ".gif", ".bmp", ".svg", ".ico", ".webp"]),
    Rule("Videos", [".mp4", ".avi", ".mkv", ".mov", ".wmv", ".flv", ".webm"]),
    Rule("Audio", [".mp3", ".wav", ".flac", ".aac", ".ogg", ".wma", ".m4a"]),
    Rule("Documents", [".pdf", ".doc", ".docx", ".txt", ".rtf", ".odt", ".xls", ".xlsx", ".ppt", ".pptx"]),
    Rule("Archives", [".zip", ".rar", ".7z", ".tar", ".gz"]),
    Rule("Code", [".py", ".java", ".cpp", ".c", ".js", ".html", ".css", ".php"]),
    Rule("Executables", [".exe", ".msi", ".bat", ".sh"]),
    Rule("Others", [])
  ]

  const DeveloperTemplate: Table := [
    Rule("Source Code", [".py", ".js", ".java", ".cpp", ".c", ".h", ".cs"]),
    Rule("Web Files", [".html", ".css", ".scss", ".jsx", ".tsx", ".vue"]),
    Rule("Config", [".json", ".yaml", ".yml", ".xml", ".toml", ".ini"]),
    Rule("Documentation", [".md", ".txt", ".pdf"]),
    Rule("Images", [".png", ".jpg", ".svg", ".ico"]),
    Rule("Others", [])
  ]

  const PhotographerTemplate: Table := [
    Rule("RAW", [".raw", ".cr2", ".nef", ".arw", ".dng"]),
    Rule("JPEG", [".jpg", ".jpeg"]),
    Rule("PNG", [".png"]),
    Rule("Edited", [".psd", ".ai", ".xcf"]),
    Rule("Videos", [".mp4", ".mov", ".avi"]),
    Rule("Others", [])
  ]

  const StudentTemplate: Table := [
    Rule("Assignments", [".doc", ".docx", ".pdf"]),
    Rule("Presentations", [".ppt", ".pptx"]),
    Rule("Spreadsheets", [".xls", ".xlsx"]),
    Rule("Notes", [".txt", ".md", ".odt"]),
    Rule("Research", [".pdf"]),
    Rule("Others", [])
  ]

  /** `TEMPLATES`, in insertion order. */
  const Templates: seq<(string, Table)> :=
    [("Developer", DeveloperTemplate), ("Photographer", PhotographerTemplate), ("Student", StudentTemplate)]

  /** A table whose only "Others" rules list no extension: the catch-all
      rule of every shipped table. */
  predicate OthersIsEmpty(table: Table) {
    forall i :: 0 <= i < |table| && table[i].category == "Others" ==> table[i].exts == []
  }

  /** When the "Others" rules list nothing, a file goes to "Others" exactly
      when no rule lists its extension. */
  lemma {:induction false} OthersOnlyAsFallback(table: Table, ext: string)
    requires OthersIsEmpty(table)
    ensures CategoryOf(table, ext) == "Others" <==> forall i :: 0 <= i < |table| ==> ext !in table[i].exts
  {
    if table != [] && ext !in table[0].exts {
      assert OthersIsEmpty(table[1..]) by {
        forall i | 0 <= i < |table| - 1 && table[1..][i].category == "Others"
          ensures table[1..][i].exts == []
        {
          assert table[1..][i] == table[i + 1];
        }
      }
      OthersOnlyAsFallback(table[1..], ext);
      assert forall i :: 1 <= i < |table| ==> table[1..][i - 1] == table[i];
    }
  }

  /** Every table the organizers ship, the defaults and the three templates,
      ends in an empty "Others" rule and names no other rule "Others". */
  lemma ShippedTablesKeepOthersEmpty()
    ensures OthersIsEmpty(DefaultCategories) && OthersIsEmpty(UltimateCategories)
    ensures forall i :: 0 <= i < |Templates| ==> OthersIsEmpty(Templates[i].1)
    ensures Last(DefaultCategories) == Rule("Others", []) && Last(UltimateCategories) == Rule("Others", [])
    ensures forall i :: 0 <= i < |Templates| ==> Templates[i].1 != [] && Last(Templates[i].1) == Rule("Others", [])
  {
    assert OthersIsEmpty(DefaultCategories);
    assert OthersIsEmpty(UltimateCategories);
    assert OthersIsEmpty(DeveloperTemplate);
    assert OthersIsEmpty(PhotographerTemplate);
    assert OthersIsEmpty(StudentTemplate);
  }

  /** `TEMPLATES[name]`, or `None` where Python raises `KeyError`. */
  function LookupTemplate(templates: seq<(string, Table)>, name: string): (t: Option<Table>)
    ensures t.None? <==> forall i :: 0 <= i < |templates| ==> templates[i].0 != name
    ensures t.Some? ==> exists i :: 0 <= i < |templates| && templates[i] == (name, t.value)
  {
    if templates == [] then None
    else if templates[0].0 == name then Some(templates[0].1)
    else
      var t := LookupTemplate(templates[1..], name);
      assert forall i :: 1 <= i < |templates| ==> templates[1..][i - 1] == templates[i];
      t
  }

  /** No two templates share a name. */
  predicate DistinctNames(templates: seq<(string, Table)>) {
    forall i, j :: 0 <= i < j < |templates| ==> templates[i].0 != templates[j].0
  }

  /** When template names are distinct, looking up any entry's name finds
      that entry's table. */
  lemma {:induction false} LookupFindsEntry(templates: seq<(string, Table)>, k: nat)
    requires DistinctNames(templates) && k < |templates|
    ensures LookupTemplate(templates, templates[k].0) == Some(templates[k].1)
    decreases |templates|
  {
    if k > 0 {
      var rest := templates[1..];
      assert templates[0].0 != templates[k].0;
      assert rest[k - 1] == templates[k];
      forall i, j | 0 <= i < j < |rest|
        ensures rest[i].0 != rest[j].0
      {
        assert rest[i] == templates[i + 1] && rest[j] == templates[j + 1];
      }
      LookupFindsEntry(rest, k - 1);
    }
  }

  /** Under the Student template ".pdf" is listed by both "Assignments" and
      "Research"; first match sends it to "Assignments", so "Research" never
      receives a PDF. */
  lemma StudentPdfGoesToAssignments()
    ensures ".pdf" in StudentTemplate[0].exts && ".pdf" in StudentTemplate[4].exts
    ensures StudentTemplate[4].category == "Research"
    ensures CategoryOf(StudentTemplate, ".pdf") == "Assignments"
    ensures forall name :: Lower(Suffix(name)) == ".pdf" ==> GetDestination(name, StudentTemplate) == "Assignments"
  {
    assert ".pdf" == StudentTemplate[0].exts[2];
    assert ".pdf" == StudentTemplate[4].exts[0];
  }

  /** Under the Ultimate defaults every file whose suffix lowercases to ".pdf"
      ("report.pdf", "SCAN.PDF", ...) goes to "Documents": no earlier rule
      lists ".pdf". */
  lemma PdfIsDocument(name: string)
    requires Lower(Suffix(name)) == ".pdf"
    ensures GetDestination(name, UltimateCategories) == "Documents"
  {
    PdfNotMedia();
    assert ".pdf" == UltimateCategories[3].exts[0];
  }

  /** No rule before "Documents" lists ".pdf". */
  lemma PdfNotMedia()
    ensures forall i :: 0 <= i < 3 ==> ".pdf" !in UltimateCategories[i].exts
  {
    assert ".pdf" !in UltimateCategories[0].exts;
    assert ".pdf" !in UltimateCategories[1].exts;
    assert ".pdf" !in UltimateCategories[2].exts;
  }

  /** A name without a dot has no suffix and goes to "Others", unless some
      rule lists the empty extension. */
  lemma NoSuffixIsOthers(name: string, table: Table)
    requires '.' !in name
    requires forall i :: 0 <= i < |table| ==> "" !in table[i].exts
    ensures GetDestination(name, table) == "Others"
  {
    assert LastIndexOf(name, '.') == -1;
    assert Lower("") == "";
  }
}
