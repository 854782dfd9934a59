/**
 * File-type categories and the extension table of fss: `FileType`, its
 * `Display`, the `FILETYPE_MAP` table, `FileType::get_filetype` and
 * `FileType::from_path`.
 */
module Groups {
  import opened Wrappers
  import opened Ascii
  import opened Paths

  datatype FileType = Image | Video | Document | Executable | Archive | Audio | Code | GenomicData | Other

  /**
   * `Display for FileType` prints the derived `Debug` form, which is the
   * variant's name: a capitalised word, and "Other" only for `Other`.
   */
  function DisplayName(t: FileType): (r: string)
    ensures r != "" && IsUpper(r[0])
    ensures r == "Other" <==> t == Other
  {
    match t
    case Image => "Image"
    case Video => "Video"
    case Document => "Document"
    case Executable => "Executable"
    case Archive => "Archive"
    case Audio => "Audio"
    case Code => "Code"
    case GenomicData => "GenomicData"
    case Other => "Other"
  }

  /** Distinct categories are displayed differently, so in Type mode every category is its own group. */
  lemma DisplayNameInjective(a: FileType, b: FileType)
    ensures DisplayName(a) == DisplayName(b) <==> a == b
    ensures DisplayName(Other) == "Other" && DisplayName(GenomicData) == "GenomicData"
  {
  }

  // ---------------------------------------------------------------------------
  // The table. It is filled once by a sequence of `insert` calls and never
  // changed afterwards. The calls are grouped here into runs that store one
  // category; a long block of the source is split into several consecutive
  // runs of the same category, which inserts exactly the same keys in the same
  // order.

  /** Consecutive `insert` calls of the table that all store `category`. */
  datatype InsertRun = InsertRun(category: FileType, keys: seq<string>)

  /** `insert` each of `keys` with category `t` into `m`, in order; an insert replaces what the key held before. */
  function InsertAll(m: map<string, FileType>, keys: seq<string>, t: FileType): (r: map<string, FileType>)
    ensures r.Keys == m.Keys + set k | k in keys
    ensures forall k :: k in r ==> r[k] == if k in keys then t else m[k]
    decreases |keys|
  {
    if keys == [] then m
    else InsertAll(m, keys[..|keys| - 1], t)[keys[|keys| - 1] := t]
  }

  /** Some run of `runs` inserts `k`. */
  ghost predicate Inserted(runs: seq<InsertRun>, k: string) {
    exists i :: 0 <= i < |runs| && k in runs[i].keys
  }

  /** A key is inserted by a list of runs exactly when the last run or one before it inserts it. */
  lemma InsertedSnoc(runs: seq<InsertRun>)
    requires runs != []
    ensures forall k :: Inserted(runs, k) <==> Inserted(runs[..|runs| - 1], k) || k in runs[|runs| - 1].keys
  {
    var init := runs[..|runs| - 1];
    forall k | Inserted(runs, k) && k !in runs[|runs| - 1].keys
      ensures Inserted(init, k)
    {
      var i :| 0 <= i < |runs| && k in runs[i].keys;
      assert init[i] == runs[i];
    }
    forall k | Inserted(init, k)
      ensures Inserted(runs, k)
    {
      var i :| 0 <= i < |init| && k in init[i].keys;
      assert init[i] == runs[i];
    }
  }

  /**
   * The map that the runs of `insert` calls leave behind, starting from an
   * empty map: its keys are exactly the keys some run inserts.
   */
  function BuildMap(runs: seq<InsertRun>): (r: map<string, FileType>)
    ensures forall k :: k in r <==> Inserted(runs, k)
  {
    if runs == [] then map[]
    else
      var last := runs[|runs| - 1];
      InsertedSnoc(runs);
      InsertAll(BuildMap(runs[..|runs| - 1]), last.keys, last.category)
  }

  /** Run `i` is the last of `runs` that inserts `k`. */
  ghost predicate LastInserts(runs: seq<InsertRun>, i: int, k: string) {
    0 <= i < |runs| && k in runs[i].keys && forall j :: i < j < |runs| ==> k !in runs[j].keys
  }

  /** A run that no later run overrides stays the last to insert `k` when a run without `k` follows. */
  lemma LastInsertsSnoc(runs: seq<InsertRun>, i: int, k: string)
    requires runs != [] && LastInserts(runs[..|runs| - 1], i, k) && k !in runs[|runs| - 1].keys
    ensures LastInserts(runs, i, k)
  {
    var init := runs[..|runs| - 1];
    assert runs[i] == init[i];
    forall j | i < j < |runs|
      ensures k !in runs[j].keys
    {
      if j < |init| {
        assert runs[j] == init[j];
      }
    }
  }

  /** A key of the built map holds the category of the LAST run that inserts it. */
  lemma {:induction false} BuildMapLookup(runs: seq<InsertRun>, k: string) returns (i: nat)
    requires k in BuildMap(runs)
    ensures LastInserts(runs, i, k) && BuildMap(runs)[k] == runs[i].category
  {
    var init, last := runs[..|runs| - 1], runs[|runs| - 1];
    if k in last.keys {
      i := |runs| - 1;
    } else {
      assert k in BuildMap(init);
      i := BuildMapLookup(init, k);
      LastInsertsSnoc(runs, i, k);
    }
  }

  // groups.rs:40-54
  const ImageKeys: seq<string> := [
    "jpg", "jpeg", "jpegxl", "png", "tiff", "raw", "nef", "webp", "psd", "heic", "gif",
    "avif", "dng", "svg", "bmp"
  ]

  // groups.rs:56-69
  const VideoKeys: seq<string> := [
    "mp4", "mkv", "avi", "webm", "flv", "f4v", "gifv", "mpeg", "mpg", "mov", "wmv",
    "3gp", "aaf", "avchd"
  ]

  // groups.rs:71-84
  const DocumentKeys1: seq<string> := [
    "pdf", "txt", "docx", "doc", "xlsx", "xls", "csv", "tsv", "md", "odt", "fodt",
    "pages", "rtf", "tex"
  ]

  // groups.rs:85-97
  const DocumentKeys2: seq<string> := [
    "latex", "epub", "kpub", "ppt", "pptx", "otp", "odp", "pot", "pps", "bib", "log",
    "tmp", "temp"
  ]

  // groups.rs:99-114
  const CodeKeys1: seq<string> := [
    "py", "pyc", "pyo", "xml", "html", "htm", "htmx", "xhtml", "xht", "css", "js", "jsx",
    "json", "yaml", "toml", "ts"
  ]

  // groups.rs:115-130
  const CodeKeys2: seq<string> := [
    "c", "cpp", "h", "rs", "r", "go", "zig", "awk", "cs", "csproj", "ici", "ipynb", "kt",
    "lua", "php", "pl"
  ]

  // groups.rs:131-145
  const CodeKeys3: seq<string> := [
    "pm", "ps1", "sh", "fish", "asm", "d", "vim", "java", "lisp", "php3", "php4", "php5",
    "phps", "vb", "sql"
  ]

  // groups.rs:147-155
  const ExecutableKeys: seq<string> := [
    "exe", "apk", "o", "so", "app", "dll", "elf", "jar", "lib"
  ]

  // groups.rs:157-168
  const AudioKeys: seq<string> := [
    "mp3", "aiff", "aif", "aifc", "wav", "flac", "wma", "dts", "ac3", "aac", "ots",
    "ogg"
  ]

  // groups.rs:170-178
  const ArchiveKeys1: seq<string> := [
    "gz", "gzip", "zst", "zstd", "zip", "7z", "7zip", "rar", "tar"
  ]

  // groups.rs:179-187
  const ArchiveKeys2: seq<string> := [
    "bin", "dat", "bz2", "pak", "par", "pax", "sqlite", "sq", "vbox"
  ]

  // groups.rs:189-202
  const GenomicDataKeys1: seq<string> := [
    "bam", "bai", "sam", "bed", "gtf", "gtf2", "gtf3", "gff", "gff2", "gff3", "bedpe",
    "cram", "sra", "fastq"
  ]

  // groups.rs:203-215
  const GenomicDataKeys2: seq<string> := [
    "fasta", "fa", "fq", "fasterq", "embl", "genbank", "pdb", "ncbi", "maf", "nwk",
    "phd", "vcf", "pod5"
  ]

  /** The `insert` calls of `FILETYPE_MAP`, in source order. */
  const FiletypeInserts: seq<InsertRun> := [
    InsertRun(Image, ImageKeys),
    InsertRun(Video, VideoKeys),
    InsertRun(Document, DocumentKeys1),
    InsertRun(Document, DocumentKeys2),
    InsertRun(Code, CodeKeys1),
    InsertRun(Code, CodeKeys2),
    InsertRun(Code, CodeKeys3),
    InsertRun(Executable, ExecutableKeys),
    InsertRun(Audio, AudioKeys),
    InsertRun(Archive, ArchiveKeys1),
    InsertRun(Archive, ArchiveKeys2),
    InsertRun(GenomicData, GenomicDataKeys1),
    InsertRun(GenomicData, GenomicDataKeys2)
  ]

  /** `FILETYPE_MAP`. */
  const FiletypeMap: map<string, FileType> := BuildMap(FiletypeInserts)

  /**
   * `FileType::get_filetype`: an exact map lookup that defaults to `Other`;
   * the key is not lower-cased. Only a table key gets a category, so the
   * empty string, a string holding an upper-case letter, and one longer than
   * every key all get `Other`.
   */
  function GetFiletype(ext: string): (r: FileType)
    ensures r != Other ==> ext != "" && IsLowercase(ext) && |ext| <= MaxKeyLength
  {
    if ext in FiletypeMap then
      FiletypeKeysLowercase(ext);
      FiletypeKeysShort(ext);
      FiletypeMap[ext]
    else Other
  }

  /**
   * `FileType::from_path`: the lower-cased extension is looked up if the path
   * has one, else the lower-cased file name; a path that ends in no name (the
   * root, "..") is `Other`.
   */
  function FromPath(p: Path): (r: FileType)
    ensures Extension(p).Some? ==> r == GetFiletype(ToLowercase(Extension(p).value))
    ensures Extension(p).None? && FileName(p).Some? ==> r == GetFiletype(ToLowercase(FileName(p).value))
    ensures FileName(p).None? ==> r == Other
  {
    GetFiletype(ToLowercase(Extension(p).GetOr(FileName(p).GetOr(""))))
  }

  // ---------------------------------------------------------------------------
  // No key is inserted twice.

  predicate Distinct(keys: seq<string>) {
    forall i, j :: 0 <= i < j < |keys| ==> keys[i] != keys[j]
  }

  predicate Disjoint(a: seq<string>, b: seq<string>) {
    forall i, j :: 0 <= i < |a| && 0 <= j < |b| ==> a[i] != b[j]
  }

  /** Every key of the run is a non-empty lower-case string, and the run names no key twice. */
  predicate WellFormedRun(keys: seq<string>) {
    Distinct(keys) && LowercaseKeys(keys)
  }

  /** No key of the table is longer than this many characters. */
  const MaxKeyLength := 7

  predicate LowercaseKeys(keys: seq<string>) {
    forall i :: 0 <= i < |keys| ==> keys[i] != "" && IsLowercase(keys[i])
  }

  /** No key of the run is longer than MaxKeyLength. */
  predicate ShortKeys(keys: seq<string>) {
    forall i :: 0 <= i < |keys| ==> |keys[i]| <= MaxKeyLength
  }

  /** No run names a key twice, no two runs share a key, and no category stored is `Other`. */
  predicate InsertsWellFormed(runs: seq<InsertRun>) {
    && (forall i :: 0 <= i < |runs| ==> WellFormedRun(runs[i].keys) && runs[i].category != Other)
    && (forall i, j :: 0 <= i < j < |runs| ==> Disjoint(runs[i].keys, runs[j].keys))
  }

// generic facts about well-formed runs, proved once for any list of runs

  /** Every key of the built map comes from some run. */
  lemma BuildMapKeyOrigin(runs: seq<InsertRun>, ext: string) returns (i: nat, a: nat)
    requires ext in BuildMap(runs)
    ensures i < |runs| && a < |runs[i].keys| && runs[i].keys[a] == ext
  {
    i := BuildMapLookup(runs, ext);
    a :| 0 <= a < |runs[i].keys| && runs[i].keys[a] == ext;
  }

  /** When no two runs share a key, a key named by run `i` holds run `i`'s category. */
  lemma BuildMapOfWellFormed(runs: seq<InsertRun>, i: nat, ext: string)
    requires InsertsWellFormed(runs) && i < |runs| && ext in runs[i].keys
    ensures ext in BuildMap(runs) && BuildMap(runs)[ext] == runs[i].category
  {
    assert Inserted(runs, ext);
    var i' := BuildMapLookup(runs, ext);
  }

  /** A string that no run names is not in the map; the map never holds `Other`. */
  lemma BuildMapOfNonKey(runs: seq<InsertRun>, ext: string)
    requires InsertsWellFormed(runs)
    ensures (forall i :: 0 <= i < |runs| ==> ext !in runs[i].keys) <==> ext !in BuildMap(runs)
    ensures ext in BuildMap(runs) ==> BuildMap(runs)[ext] != Other
  {
    if ext in BuildMap(runs) {
      var i := BuildMapLookup(runs, ext);
      assert runs[i].category != Other;
    }
  }

  /** The keys of well-formed runs are non-empty lower-case strings. */
  lemma BuildMapKeysLowercase(runs: seq<InsertRun>, ext: string)
    requires InsertsWellFormed(runs) && ext in BuildMap(runs)
    ensures ext != "" && IsLowercase(ext)
  {
    var i, a := BuildMapKeyOrigin(runs, ext);
    assert WellFormedRun(runs[i].keys);
  }

  /** The keys of runs of short keys are short. */
  lemma BuildMapKeysShort(runs: seq<InsertRun>, ext: string)
    requires forall i :: 0 <= i < |runs| ==> ShortKeys(runs[i].keys)
    requires ext in BuildMap(runs)
    ensures |ext| <= MaxKeyLength
  {
    var i, a := BuildMapKeyOrigin(runs, ext);
    assert ShortKeys(runs[i].keys);
  }

  // ---------------------------------------------------------------------------
  // The runs of FILETYPE_MAP, one at a time and pair by pair.

  lemma ImageKeysDistinct()
    ensures Distinct(ImageKeys)
  {
  }

  lemma ImageKeysLowercase()
    ensures LowercaseKeys(ImageKeys)
  {
  }

  lemma VideoKeysDistinct()
    ensures Distinct(VideoKeys)
  {
  }

  lemma VideoKeysLowercase()
    ensures LowercaseKeys(VideoKeys)
  {
  }

  lemma DocumentKeys1Distinct()
    ensures Distinct(DocumentKeys1)
  {
  }

  lemma DocumentKeys1Lowercase()
    ensures LowercaseKeys(DocumentKeys1)
  {
  }

  lemma DocumentKeys2Distinct()
    ensures Distinct(DocumentKeys2)
  {
  }

  lemma DocumentKeys2Lowercase()
    ensures LowercaseKeys(DocumentKeys2)
  {
  }

  lemma CodeKeys1Distinct()
    ensures Distinct(CodeKeys1)
  {
  }

  lemma CodeKeys1Lowercase()
    ensures LowercaseKeys(CodeKeys1)
  {
  }

  lemma CodeKeys2Distinct()
    ensures Distinct(CodeKeys2)
  {
  }

  lemma CodeKeys2Lowercase()
    ensures LowercaseKeys(CodeKeys2)
  {
  }

  lemma CodeKeys3Distinct()
    ensures Distinct(CodeKeys3)
  {
  }

  lemma CodeKeys3Lowercase()
    ensures LowercaseKeys(CodeKeys3)
  {
  }

  lemma ExecutableKeysDistinct()
    ensures Distinct(ExecutableKeys)
  {
  }

  lemma ExecutableKeysLowercase()
    ensures LowercaseKeys(ExecutableKeys)
  {
  }

  lemma AudioKeysDistinct()
    ensures Distinct(AudioKeys)
  {
  }

  lemma AudioKeysLowercase()
    ensures LowercaseKeys(AudioKeys)
  {
  }

  lemma ArchiveKeys1Distinct()
    ensures Distinct(ArchiveKeys1)
  {
  }

  lemma ArchiveKeys1Lowercase()
    ensures LowercaseKeys(ArchiveKeys1)
  {
  }

  lemma ArchiveKeys2Distinct()
    ensures Distinct(ArchiveKeys2)
  {
  }

  lemma ArchiveKeys2Lowercase()
    ensures LowercaseKeys(ArchiveKeys2)
  {
  }

  lemma GenomicDataKeys1Distinct()
    ensures Distinct(GenomicDataKeys1)
  {
  }

  lemma GenomicDataKeys1Lowercase()
    ensures LowercaseKeys(GenomicDataKeys1)
  {
  }

  lemma GenomicDataKeys2Distinct()
    ensures Distinct(GenomicDataKeys2)
  {
  }

  lemma GenomicDataKeys2Lowercase()
    ensures LowercaseKeys(GenomicDataKeys2)
  {
  }

  lemma ImageKeysDisjointVideoKeys()
    ensures Disjoint(ImageKeys, VideoKeys)
  {
  }

  lemma ImageKeysDisjointDocumentKeys1()
    ensures Disjoint(ImageKeys, DocumentKeys1)
  {
  }

  lemma ImageKeysDisjointDocumentKeys2()
    ensures Disjoint(ImageKeys, DocumentKeys2)
  {
  }

  lemma ImageKeysDisjointCodeKeys1()
    ensures Disjoint(ImageKeys, CodeKeys1)
  {
  }

  lemma ImageKeysDisjointCodeKeys2()
    ensures Disjoint(ImageKeys, CodeKeys2)
  {
  }

  lemma ImageKeysDisjointCodeKeys3()
    ensures Disjoint(ImageKeys, CodeKeys3)
  {
  }

  lemma ImageKeysDisjointExecutableKeys()
    ensures Disjoint(ImageKeys, ExecutableKeys)
  {
  }

  lemma ImageKeysDisjointAudioKeys()
    ensures Disjoint(ImageKeys, AudioKeys)
  {
  }

  lemma ImageKeysDisjointArchiveKeys1()
    ensures Disjoint(ImageKeys, ArchiveKeys1)
  {
  }

  lemma ImageKeysDisjointArchiveKeys2()
    ensures Disjoint(ImageKeys, ArchiveKeys2)
  {
  }

  lemma ImageKeysDisjointGenomicDataKeys1()
    ensures Disjoint(ImageKeys, GenomicDataKeys1)
  {
  }

  lemma ImageKeysDisjointGenomicDataKeys2()
    ensures Disjoint(ImageKeys, GenomicDataKeys2)
  {
  }

  lemma VideoKeysDisjointDocumentKeys1()
    ensures Disjoint(VideoKeys, DocumentKeys1)
  {
  }

  lemma VideoKeysDisjointDocumentKeys2()
    ensures Disjoint(VideoKeys, DocumentKeys2)
  {
  }

  lemma VideoKeysDisjointCodeKeys1()
    ensures Disjoint(VideoKeys, CodeKeys1)
  {
  }

  lemma VideoKeysDisjointCodeKeys2()
    ensures Disjoint(VideoKeys, CodeKeys2)
  {
  }

  lemma VideoKeysDisjointCodeKeys3()
    ensures Disjoint(VideoKeys, CodeKeys3)
  {
  }

  lemma VideoKeysDisjointExecutableKeys()
    ensures Disjoint(VideoKeys, ExecutableKeys)
  {
  }

  lemma VideoKeysDisjointAudioKeys()
    ensures Disjoint(VideoKeys, AudioKeys)
  {
  }

  lemma VideoKeysDisjointArchiveKeys1()
    ensures Disjoint(VideoKeys, ArchiveKeys1)
  {
  }

  lemma VideoKeysDisjointArchiveKeys2()
    ensures Disjoint(VideoKeys, ArchiveKeys2)
  {
  }

  lemma VideoKeysDisjointGenomicDataKeys1()
    ensures Disjoint(VideoKeys, GenomicDataKeys1)
  {
  }

  lemma VideoKeysDisjointGenomicDataKeys2()
    ensures Disjoint(VideoKeys, GenomicDataKeys2)
  {
  }

  lemma DocumentKeys1DisjointDocumentKeys2()
    ensures Disjoint(DocumentKeys1, DocumentKeys2)
  {
  }

  lemma DocumentKeys1DisjointCodeKeys1()
    ensures Disjoint(DocumentKeys1, CodeKeys1)
  {
  }

  lemma DocumentKeys1DisjointCodeKeys2()
    ensures Disjoint(DocumentKeys1, CodeKeys2)
  {
  }

  lemma DocumentKeys1DisjointCodeKeys3()
    ensures Disjoint(DocumentKeys1, CodeKeys3)
  {
  }

  lemma DocumentKeys1DisjointExecutableKeys()
    ensures Disjoint(DocumentKeys1, ExecutableKeys)
  {
  }

  lemma DocumentKeys1DisjointAudioKeys()
    ensures Disjoint(DocumentKeys1, AudioKeys)
  {
  }

  lemma DocumentKeys1DisjointArchiveKeys1()
    ensures Disjoint(DocumentKeys1, ArchiveKeys1)
  {
  }

  lemma DocumentKeys1DisjointArchiveKeys2()
    ensures Disjoint(DocumentKeys1, ArchiveKeys2)
  {
  }

  lemma DocumentKeys1DisjointGenomicDataKeys1()
    ensures Disjoint(DocumentKeys1, GenomicDataKeys1)
  {
  }

  lemma DocumentKeys1DisjointGenomicDataKeys2()
    ensures Disjoint(DocumentKeys1, GenomicDataKeys2)
  {
  }

  lemma DocumentKeys2DisjointCodeKeys1()
    ensures Disjoint(DocumentKeys2, CodeKeys1)
  {
  }

  lemma DocumentKeys2DisjointCodeKeys2()
    ensures Disjoint(DocumentKeys2, CodeKeys2)
  {
  }

  lemma DocumentKeys2DisjointCodeKeys3()
    ensures Disjoint(DocumentKeys2, CodeKeys3)
  {
  }

  lemma DocumentKeys2DisjointExecutableKeys()
    ensures Disjoint(DocumentKeys2, ExecutableKeys)
  {
  }

  lemma DocumentKeys2DisjointAudioKeys()
    ensures Disjoint(DocumentKeys2, AudioKeys)
  {
  }

  lemma DocumentKeys2DisjointArchiveKeys1()
    ensures Disjoint(DocumentKeys2, ArchiveKeys1)
  {
  }

  lemma DocumentKeys2DisjointArchiveKeys2()
    ensures Disjoint(DocumentKeys2, ArchiveKeys2)
  {
  }

  lemma DocumentKeys2DisjointGenomicDataKeys1()
    ensures Disjoint(DocumentKeys2, GenomicDataKeys1)
  {
  }

  lemma DocumentKeys2DisjointGenomicDataKeys2()
    ensures Disjoint(DocumentKeys2, GenomicDataKeys2)
  {
  }

  lemma CodeKeys1DisjointCodeKeys2()
    ensures Disjoint(CodeKeys1, CodeKeys2)
  {
  }

  lemma CodeKeys1DisjointCodeKeys3()
    ensures Disjoint(CodeKeys1, CodeKeys3)
  {
  }

  lemma CodeKeys1DisjointExecutableKeys()
    ensures Disjoint(CodeKeys1, ExecutableKeys)
  {
  }

  lemma CodeKeys1DisjointAudioKeys()
    ensures Disjoint(CodeKeys1, AudioKeys)
  {
  }

  lemma CodeKeys1DisjointArchiveKeys1()
    ensures Disjoint(CodeKeys1, ArchiveKeys1)
  {
  }

  lemma CodeKeys1DisjointArchiveKeys2()
    ensures Disjoint(CodeKeys1, ArchiveKeys2)
  {
  }

  lemma CodeKeys1DisjointGenomicDataKeys1()
    ensures Disjoint(CodeKeys1, GenomicDataKeys1)
  {
  }

  lemma CodeKeys1DisjointGenomicDataKeys2()
    ensures Disjoint(CodeKeys1, GenomicDataKeys2)
  {
  }

  lemma CodeKeys2DisjointCodeKeys3()
    ensures Disjoint(CodeKeys2, CodeKeys3)
  {
  }

  lemma CodeKeys2DisjointExecutableKeys()
    ensures Disjoint(CodeKeys2, ExecutableKeys)
  {
  }

  lemma CodeKeys2DisjointAudioKeys()
    ensures Disjoint(CodeKeys2, AudioKeys)
  {
  }

  lemma CodeKeys2DisjointArchiveKeys1()
    ensures Disjoint(CodeKeys2, ArchiveKeys1)
  {
  }

  lemma CodeKeys2DisjointArchiveKeys2()
    ensures Disjoint(CodeKeys2, ArchiveKeys2)
  {
  }

  lemma CodeKeys2DisjointGenomicDataKeys1()
    ensures Disjoint(CodeKeys2, GenomicDataKeys1)
  {
  }

  lemma CodeKeys2DisjointGenomicDataKeys2()
    ensures Disjoint(CodeKeys2, GenomicDataKeys2)
  {
  }

  lemma CodeKeys3DisjointExecutableKeys()
    ensures Disjoint(CodeKeys3, ExecutableKeys)
  {
  }

  lemma CodeKeys3DisjointAudioKeys()
    ensures Disjoint(CodeKeys3, AudioKeys)
  {
  }

  lemma CodeKeys3DisjointArchiveKeys1()
    ensures Disjoint(CodeKeys3, ArchiveKeys1)
  {
  }

  lemma CodeKeys3DisjointArchiveKeys2()
    ensures Disjoint(CodeKeys3, ArchiveKeys2)
  {
  }

  lemma CodeKeys3DisjointGenomicDataKeys1()
    ensures Disjoint(CodeKeys3, GenomicDataKeys1)
  {
  }

  lemma CodeKeys3DisjointGenomicDataKeys2()
    ensures Disjoint(CodeKeys3, GenomicDataKeys2)
  {
  }

  lemma ExecutableKeysDisjointAudioKeys()
    ensures Disjoint(ExecutableKeys, AudioKeys)
  {
  }

  lemma ExecutableKeysDisjointArchiveKeys1()
    ensures Disjoint(ExecutableKeys, ArchiveKeys1)
  {
  }

  lemma ExecutableKeysDisjointArchiveKeys2()
    ensures Disjoint(ExecutableKeys, ArchiveKeys2)
  {
  }

  lemma ExecutableKeysDisjointGenomicDataKeys1()
    ensures Disjoint(ExecutableKeys, GenomicDataKeys1)
  {
  }

  lemma ExecutableKeysDisjointGenomicDataKeys2()
    ensures Disjoint(ExecutableKeys, GenomicDataKeys2)
  {
  }

  lemma AudioKeysDisjointArchiveKeys1()
    ensures Disjoint(AudioKeys, ArchiveKeys1)
  {
  }

  lemma AudioKeysDisjointArchiveKeys2()
    ensures Disjoint(AudioKeys, ArchiveKeys2)
  {
  }

  lemma AudioKeysDisjointGenomicDataKeys1()
    ensures Disjoint(AudioKeys, GenomicDataKeys1)
  {
  }

  lemma AudioKeysDisjointGenomicDataKeys2()
    ensures Disjoint(AudioKeys, GenomicDataKeys2)
  {
  }

  lemma ArchiveKeys1DisjointArchiveKeys2()
    ensures Disjoint(ArchiveKeys1, ArchiveKeys2)
  {
  }

  lemma ArchiveKeys1DisjointGenomicDataKeys1()
    ensures Disjoint(ArchiveKeys1, GenomicDataKeys1)
  {
  }

  lemma ArchiveKeys1DisjointGenomicDataKeys2()
    ensures Disjoint(ArchiveKeys1, GenomicDataKeys2)
  {
  }

  lemma ArchiveKeys2DisjointGenomicDataKeys1()
    ensures Disjoint(ArchiveKeys2, GenomicDataKeys1)
  {
  }

  lemma ArchiveKeys2DisjointGenomicDataKeys2()
    ensures Disjoint(ArchiveKeys2, GenomicDataKeys2)
  {
  }

  lemma GenomicDataKeys1DisjointGenomicDataKeys2()
    ensures Disjoint(GenomicDataKeys1, GenomicDataKeys2)
  {
  }

  lemma ImageKeysDisjointFromLater()
    ensures forall j :: 0 < j < |FiletypeInserts| ==> Disjoint(FiletypeInserts[0].keys, FiletypeInserts[j].keys)
  {
    forall j | 0 < j < |FiletypeInserts|
      ensures Disjoint(FiletypeInserts[0].keys, FiletypeInserts[j].keys)
    {
      if j == 1 {
        ImageKeysDisjointVideoKeys();
      } else if j == 2 {
        ImageKeysDisjointDocumentKeys1();
      } else if j == 3 {
        ImageKeysDisjointDocumentKeys2();
      } else if j == 4 {
        ImageKeysDisjointCodeKeys1();
      } else if j == 5 {
        ImageKeysDisjointCodeKeys2();
      } else if j == 6 {
        ImageKeysDisjointCodeKeys3();
      } else if j == 7 {
        ImageKeysDisjointExecutableKeys();
      } else if j == 8 {
        ImageKeysDisjointAudioKeys();
      } else if j == 9 {
        ImageKeysDisjointArchiveKeys1();
      } else if j == 10 {
        ImageKeysDisjointArchiveKeys2();
      } else if j == 11 {
        ImageKeysDisjointGenomicDataKeys1();
      } else if j == 12 {
        ImageKeysDisjointGenomicDataKeys2();
      }
    }
  }

  lemma VideoKeysDisjointFromLater()
    ensures forall j :: 1 < j < |FiletypeInserts| ==> Disjoint(FiletypeInserts[1].keys, FiletypeInserts[j].keys)
  {
    forall j | 1 < j < |FiletypeInserts|
      ensures Disjoint(FiletypeInserts[1].keys, FiletypeInserts[j].keys)
    {
      if j == 2 {
        VideoKeysDisjointDocumentKeys1();
      } else if j == 3 {
        VideoKeysDisjointDocumentKeys2();
      } else if j == 4 {
        VideoKeysDisjointCodeKeys1();
      } else if j == 5 {
        VideoKeysDisjointCodeKeys2();
      } else if j == 6 {
        VideoKeysDisjointCodeKeys3();
      } else if j == 7 {
        VideoKeysDisjointExecutableKeys();
      } else if j == 8 {
        VideoKeysDisjointAudioKeys();
      } else if j == 9 {
        VideoKeysDisjointArchiveKeys1();
      } else if j == 10 {
        VideoKeysDisjointArchiveKeys2();
      } else if j == 11 {
        VideoKeysDisjointGenomicDataKeys1();
      } else if j == 12 {
        VideoKeysDisjointGenomicDataKeys2();
      }
    }
  }

  lemma DocumentKeys1DisjointFromLater()
    ensures forall j :: 2 < j < |FiletypeInserts| ==> Disjoint(FiletypeInserts[2].keys, FiletypeInserts[j].keys)
  {
    forall j | 2 < j < |FiletypeInserts|
      ensures Disjoint(FiletypeInserts[2].keys, FiletypeInserts[j].keys)
    {
      if j == 3 {
        DocumentKeys1DisjointDocumentKeys2();
      } else if j == 4 {
        DocumentKeys1DisjointCodeKeys1();
      } else if j == 5 {
        DocumentKeys1DisjointCodeKeys2();
      } else if j == 6 {
        DocumentKeys1DisjointCodeKeys3();
      } else if j == 7 {
        DocumentKeys1DisjointExecutableKeys();
      } else if j == 8 {
        DocumentKeys1DisjointAudioKeys();
      } else if j == 9 {
        DocumentKeys1DisjointArchiveKeys1();
      } else if j == 10 {
        DocumentKeys1DisjointArchiveKeys2();
      } else if j == 11 {
        DocumentKeys1DisjointGenomicDataKeys1();
      } else if j == 12 {
        DocumentKeys1DisjointGenomicDataKeys2();
      }
    }
  }

  lemma DocumentKeys2DisjointFromLater()
    ensures forall j :: 3 < j < |FiletypeInserts| ==> Disjoint(FiletypeInserts[3].keys, FiletypeInserts[j].keys)
  {
    forall j | 3 < j < |FiletypeInserts|
      ensures Disjoint(FiletypeInserts[3].keys, FiletypeInserts[j].keys)
    {
      if j == 4 {
        DocumentKeys2DisjointCodeKeys1();
      } else if j == 5 {
        DocumentKeys2DisjointCodeKeys2();
      } else if j == 6 {
        DocumentKeys2DisjointCodeKeys3();
      } else if j == 7 {
        DocumentKeys2DisjointExecutableKeys();
      } else if j == 8 {
        DocumentKeys2DisjointAudioKeys();
      } else if j == 9 {
        DocumentKeys2DisjointArchiveKeys1();
      } else if j == 10 {
        DocumentKeys2DisjointArchiveKeys2();
      } else if j == 11 {
        DocumentKeys2DisjointGenomicDataKeys1();
      } else if j == 12 {
        DocumentKeys2DisjointGenomicDataKeys2();
      }
    }
  }

  lemma CodeKeys1DisjointFromLater()
    ensures forall j :: 4 < j < |FiletypeInserts| ==> Disjoint(FiletypeInserts[4].keys, FiletypeInserts[j].keys)
  {
    forall j | 4 < j < |FiletypeInserts|
      ensures Disjoint(FiletypeInserts[4].keys, FiletypeInserts[j].keys)
    {
      if j == 5 {
        CodeKeys1DisjointCodeKeys2();
      } else if j == 6 {
        CodeKeys1DisjointCodeKeys3();
      } else if j == 7 {
        CodeKeys1DisjointExecutableKeys();
      } else if j == 8 {
        CodeKeys1DisjointAudioKeys();
      } else if j == 9 {
        CodeKeys1DisjointArchiveKeys1();
      } else if j == 10 {
        CodeKeys1DisjointArchiveKeys2();
      } else if j == 11 {
        CodeKeys1DisjointGenomicDataKeys1();
      } else if j == 12 {
        CodeKeys1DisjointGenomicDataKeys2();
      }
    }
  }

  lemma CodeKeys2DisjointFromLater()
    ensures forall j :: 5 < j < |FiletypeInserts| ==> Disjoint(FiletypeInserts[5].keys, FiletypeInserts[j].keys)
  {
    forall j | 5 < j < |FiletypeInserts|
      ensures Disjoint(FiletypeInserts[5].keys, FiletypeInserts[j].keys)
    {
      if j == 6 {
        CodeKeys2DisjointCodeKeys3();
      } else if j == 7 {
        CodeKeys2DisjointExecutableKeys();
      } else if j == 8 {
        CodeKeys2DisjointAudioKeys();
      } else if j == 9 {
        CodeKeys2DisjointArchiveKeys1();
      } else if j == 10 {
        CodeKeys2DisjointArchiveKeys2();
      } else if j == 11 {
        CodeKeys2DisjointGenomicDataKeys1();
      } else if j == 12 {
        CodeKeys2DisjointGenomicDataKeys2();
      }
    }
  }

  lemma CodeKeys3DisjointFromLater()
    ensures forall j :: 6 < j < |FiletypeInserts| ==> Disjoint(FiletypeInserts[6].keys, FiletypeInserts[j].keys)
  {
    forall j | 6 < j < |FiletypeInserts|
      ensures Disjoint(FiletypeInserts[6].keys, FiletypeInserts[j].keys)
    {
      if j == 7 {
        CodeKeys3DisjointExecutableKeys();
      } else if j == 8 {
        CodeKeys3DisjointAudioKeys();
      } else if j == 9 {
        CodeKeys3DisjointArchiveKeys1();
      } else if j == 10 {
        CodeKeys3DisjointArchiveKeys2();
      } else if j == 11 {
        CodeKeys3DisjointGenomicDataKeys1();
      } else if j == 12 {
        CodeKeys3DisjointGenomicDataKeys2();
      }
    }
  }

  lemma ExecutableKeysDisjointFromLater()
    ensures forall j :: 7 < j < |FiletypeInserts| ==> Disjoint(FiletypeInserts[7].keys, FiletypeInserts[j].keys)
  {
    forall j | 7 < j < |FiletypeInserts|
      ensures Disjoint(FiletypeInserts[7].keys, FiletypeInserts[j].keys)
    {
      if j == 8 {
        ExecutableKeysDisjointAudioKeys();
      } else if j == 9 {
        ExecutableKeysDisjointArchiveKeys1();
      } else if j == 10 {
        ExecutableKeysDisjointArchiveKeys2();
      } else if j == 11 {
        ExecutableKeysDisjointGenomicDataKeys1();
      } else if j == 12 {
        ExecutableKeysDisjointGenomicDataKeys2();
      }
    }
  }

  lemma AudioKeysDisjointFromLater()
    ensures forall j :: 8 < j < |FiletypeInserts| ==> Disjoint(FiletypeInserts[8].keys, FiletypeInserts[j].keys)
  {
    forall j | 8 < j < |FiletypeInserts|
      ensures Disjoint(FiletypeInserts[8].keys, FiletypeInserts[j].keys)
    {
      if j == 9 {
        AudioKeysDisjointArchiveKeys1();
      } else if j == 10 {
        AudioKeysDisjointArchiveKeys2();
      } else if j == 11 {
        AudioKeysDisjointGenomicDataKeys1();
      } else if j == 12 {
        AudioKeysDisjointGenomicDataKeys2();
      }
    }
  }

  lemma ArchiveKeys1DisjointFromLater()
    ensures forall j :: 9 < j < |FiletypeInserts| ==> Disjoint(FiletypeInserts[9].keys, FiletypeInserts[j].keys)
  {
    forall j | 9 < j < |FiletypeInserts|
      ensures Disjoint(FiletypeInserts[9].keys, FiletypeInserts[j].keys)
    {
      if j == 10 {
        ArchiveKeys1DisjointArchiveKeys2();
      } else if j == 11 {
        ArchiveKeys1DisjointGenomicDataKeys1();
      } else if j == 12 {
        ArchiveKeys1DisjointGenomicDataKeys2();
      }
    }
  }

  lemma ArchiveKeys2DisjointFromLater()
    ensures forall j :: 10 < j < |FiletypeInserts| ==> Disjoint(FiletypeInserts[10].keys, FiletypeInserts[j].keys)
  {
    forall j | 10 < j < |FiletypeInserts|
      ensures Disjoint(FiletypeInserts[10].keys, FiletypeInserts[j].keys)
    {
      if j == 11 {
        ArchiveKeys2DisjointGenomicDataKeys1();
      } else if j == 12 {
        ArchiveKeys2DisjointGenomicDataKeys2();
      }
    }
  }

  lemma GenomicDataKeys1DisjointFromLater()
    ensures forall j :: 11 < j < |FiletypeInserts| ==> Disjoint(FiletypeInserts[11].keys, FiletypeInserts[j].keys)
  {
    forall j | 11 < j < |FiletypeInserts|
      ensures Disjoint(FiletypeInserts[11].keys, FiletypeInserts[j].keys)
    {
      if j == 12 {
        GenomicDataKeys1DisjointGenomicDataKeys2();
      }
    }
  }

  lemma ImageKeysShort()
    ensures ShortKeys(ImageKeys)
  {
  }

  lemma VideoKeysShort()
    ensures ShortKeys(VideoKeys)
  {
  }

  lemma DocumentKeys1Short()
    ensures ShortKeys(DocumentKeys1)
  {
  }

  lemma DocumentKeys2Short()
    ensures ShortKeys(DocumentKeys2)
  {
  }

  lemma CodeKeys1Short()
    ensures ShortKeys(CodeKeys1)
  {
  }

  lemma CodeKeys2Short()
    ensures ShortKeys(CodeKeys2)
  {
  }

  lemma CodeKeys3Short()
    ensures ShortKeys(CodeKeys3)
  {
  }

  lemma ExecutableKeysShort()
    ensures ShortKeys(ExecutableKeys)
  {
  }

  lemma AudioKeysShort()
    ensures ShortKeys(AudioKeys)
  {
  }

  lemma ArchiveKeys1Short()
    ensures ShortKeys(ArchiveKeys1)
  {
  }

  lemma ArchiveKeys2Short()
    ensures ShortKeys(ArchiveKeys2)
  {
  }

  lemma GenomicDataKeys1Short()
    ensures ShortKeys(GenomicDataKeys1)
  {
  }

  lemma GenomicDataKeys2Short()
    ensures ShortKeys(GenomicDataKeys2)
  {
  }

  /** Each run of the table names no key twice, only lower-case keys, and stores a category other than `Other`. */
  lemma FiletypeRunsWellFormed()
    ensures forall i :: 0 <= i < |FiletypeInserts| ==> WellFormedRun(FiletypeInserts[i].keys) && FiletypeInserts[i].category != Other
  {
    forall i | 0 <= i < |FiletypeInserts|
      ensures WellFormedRun(FiletypeInserts[i].keys) && FiletypeInserts[i].category != Other
    {
      if i == 0 {
        ImageKeysDistinct();
        ImageKeysLowercase();
      } else if i == 1 {
        VideoKeysDistinct();
        VideoKeysLowercase();
      } else if i == 2 {
        DocumentKeys1Distinct();
        DocumentKeys1Lowercase();
      } else if i == 3 {
        DocumentKeys2Distinct();
        DocumentKeys2Lowercase();
      } else if i == 4 {
        CodeKeys1Distinct();
        CodeKeys1Lowercase();
      } else if i == 5 {
        CodeKeys2Distinct();
        CodeKeys2Lowercase();
      } else if i == 6 {
        CodeKeys3Distinct();
        CodeKeys3Lowercase();
      } else if i == 7 {
        ExecutableKeysDistinct();
        ExecutableKeysLowercase();
      } else if i == 8 {
        AudioKeysDistinct();
        AudioKeysLowercase();
      } else if i == 9 {
        ArchiveKeys1Distinct();
        ArchiveKeys1Lowercase();
      } else if i == 10 {
        ArchiveKeys2Distinct();
        ArchiveKeys2Lowercase();
      } else if i == 11 {
        GenomicDataKeys1Distinct();
        GenomicDataKeys1Lowercase();
      } else if i == 12 {
        GenomicDataKeys2Distinct();
        GenomicDataKeys2Lowercase();
      }
    }
  }

  /** No two runs of the table share a key. */
  lemma FiletypeRunsDisjoint()
    ensures forall i, j :: 0 <= i < j < |FiletypeInserts| ==> Disjoint(FiletypeInserts[i].keys, FiletypeInserts[j].keys)
  {
    forall i, j | 0 <= i < j < |FiletypeInserts|
      ensures Disjoint(FiletypeInserts[i].keys, FiletypeInserts[j].keys)
    {
      if i == 0 {
        ImageKeysDisjointFromLater();
      } else if i == 1 {
        VideoKeysDisjointFromLater();
      } else if i == 2 {
        DocumentKeys1DisjointFromLater();
      } else if i == 3 {
        DocumentKeys2DisjointFromLater();
      } else if i == 4 {
        CodeKeys1DisjointFromLater();
      } else if i == 5 {
        CodeKeys2DisjointFromLater();
      } else if i == 6 {
        CodeKeys3DisjointFromLater();
      } else if i == 7 {
        ExecutableKeysDisjointFromLater();
      } else if i == 8 {
        AudioKeysDisjointFromLater();
      } else if i == 9 {
        ArchiveKeys1DisjointFromLater();
      } else if i == 10 {
        ArchiveKeys2DisjointFromLater();
      } else if i == 11 {
        GenomicDataKeys1DisjointFromLater();
      }
    }
  }

  /** The table's `insert` calls never repeat a key, so each key maps to the one category it was inserted with. */
  lemma FiletypeInsertsWellFormed()
    ensures InsertsWellFormed(FiletypeInserts)
  {
    FiletypeRunsWellFormed();
    FiletypeRunsDisjoint();
  }

  /** No run of the table names a key longer than MaxKeyLength. */
  lemma FiletypeInsertsShort()
    ensures forall i :: 0 <= i < |FiletypeInserts| ==> ShortKeys(FiletypeInserts[i].keys)
  {
    forall i | 0 <= i < |FiletypeInserts|
      ensures ShortKeys(FiletypeInserts[i].keys)
    {
      if i == 0 {
        ImageKeysShort();
      } else if i == 1 {
        VideoKeysShort();
      } else if i == 2 {
        DocumentKeys1Short();
      } else if i == 3 {
        DocumentKeys2Short();
      } else if i == 4 {
        CodeKeys1Short();
      } else if i == 5 {
        CodeKeys2Short();
      } else if i == 6 {
        CodeKeys3Short();
      } else if i == 7 {
        ExecutableKeysShort();
      } else if i == 8 {
        AudioKeysShort();
      } else if i == 9 {
        ArchiveKeys1Short();
      } else if i == 10 {
        ArchiveKeys2Short();
      } else if i == 11 {
        GenomicDataKeys1Short();
      } else if i == 12 {
        GenomicDataKeys2Short();
      }
    }
  }

  // ---------------------------------------------------------------------------
  // What a lookup returns.

  /** A key named by an insert call gets that call's category. */
  lemma GetFiletypeOfKey(i: nat, ext: string)
    requires i < |FiletypeInserts| && ext in FiletypeInserts[i].keys
    ensures ext in FiletypeMap
    ensures GetFiletype(ext) == FiletypeInserts[i].category
  {
    FiletypeInsertsWellFormed();
    BuildMapOfWellFormed(FiletypeInserts, i, ext);
  }

  /** A string that no insert call names gets `Other`; conversely `Other` is returned for nothing else. */
  lemma GetFiletypeOfNonKey(ext: string)
    ensures (forall i :: 0 <= i < |FiletypeInserts| ==> ext !in FiletypeInserts[i].keys)
      <==> GetFiletype(ext) == Other
  {
    FiletypeInsertsWellFormed();
    BuildMapOfNonKey(FiletypeInserts, ext);
  }

  /** Every key of the table is a non-empty lower-case string. */
  lemma FiletypeKeysLowercase(ext: string)
    requires ext in FiletypeMap
    ensures ext != "" && IsLowercase(ext)
  {
    FiletypeInsertsWellFormed();
    BuildMapKeysLowercase(FiletypeInserts, ext);
  }

  /** No key of the table is longer than MaxKeyLength characters. */
  lemma FiletypeKeysShort(ext: string)
    requires ext in FiletypeMap
    ensures |ext| <= MaxKeyLength
  {
    FiletypeInsertsShort();
    BuildMapKeysShort(FiletypeInserts, ext);
  }

  /** Examples of keys from the table: each gives the category it was inserted with. */
  lemma GetFiletypeKnownKeys(ext: string)
    ensures ext == "txt" ==> GetFiletype(ext) == Document
    ensures ext == "jpg" ==> GetFiletype(ext) == Image
    ensures ext == "rs" ==> GetFiletype(ext) == Code
    ensures ext == "py" ==> GetFiletype(ext) == Code
  {
    if ext == "txt" {
      GetFiletypeOfKey(2, ext);
    } else if ext == "jpg" {
      GetFiletypeOfKey(0, ext);
    } else if ext == "rs" {
      GetFiletypeOfKey(5, ext);
    } else if ext == "py" {
      GetFiletypeOfKey(4, ext);
    }
  }

  /** The empty string (a path without extension) and an upper-case spelling of a key both give `Other`. */
  lemma GetFiletypeUnknownKeys()
    ensures GetFiletype("") == Other
    ensures GetFiletype("JPG") == Other
  {
    assert IsUpper("JPG"[0]);
  }

  /** `from_path` ignores the case of the file name: only its lower-cased form is looked up. */
  lemma FromPathCaseInsensitive(dir: Path, a: string, b: string)
    requires ToLowercase(a) == ToLowercase(b)
    ensures FromPath(Join(dir, a)) == FromPath(Join(dir, b))
  {
    ExtensionCaseInsensitive(dir, a, b);
  }

  lemma DotlessNames()
    ensures Extension([Normal("PY")]) == None && ToLowercase("PY") == "py"
    ensures Extension([Normal("Makefile")]) == None && ToLowercase("Makefile") == "makefile"
  {
    assert LastDot("PY") == None;
    assert LastDot("Makefile") == None;
  }

  /**
   * A name without a dot is looked up whole and lower-cased: a file named "PY"
   * is `Code`, while "Makefile" is not a key and is `Other`.
   */
  lemma FromPathOfDotlessName(p: Path)
    ensures p == [Normal("PY")] ==> FromPath(p) == Code
    ensures p == [Normal("Makefile")] ==> FromPath(p) == Other
  {
    DotlessNames();
    if p == [Normal("PY")] {
      GetFiletypeKnownKeys("py");
    } else if p == [Normal("Makefile")] {
      assert |"makefile"| > MaxKeyLength;
    }
  }

  /** An extension is lower-cased before the lookup: "./a.JPG" is an `Image`. */
  lemma FromPathOfExtension(p: Path)
    ensures p == [CurDir, Normal("a.JPG")] ==> FromPath(p) == Image
  {
    if p == [CurDir, Normal("a.JPG")] {
      assert "a.JPG"[1] == '.';
      assert LastDot("a.JPG") == Some(1);
      assert Extension(p) == Some("JPG");
      assert ToLowercase("JPG") == "jpg";
      GetFiletypeKnownKeys("jpg");
    }
  }
}
