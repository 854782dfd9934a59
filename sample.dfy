/**
 * A small walk worked end to end: a directory "." holding "a.txt" of 100
 * bytes and "b.jpg" of 200 bytes, grouped by extension and by type.
 */
module Sample {
  import opened Wrappers
  import opened Paths
  import opened Groups
  import opened Walk
  import opened GroupKeys
  import opened Receiver
  import Cli

  const Listing: seq<DirEntry> := [Entry("a.txt", NonDirectory(None, 100)), Entry("b.jpg", NonDirectory(None, 200))]

  const Roots: seq<Item> := [Item([CurDir], Directory(Listing))]

  const TextFile: Message := SizeEntry(None, [CurDir, Normal("a.txt")], 100)

  const ImageFile: Message := SizeEntry(None, [CurDir, Normal("b.jpg")], 200)

  const Listed: seq<Item> := [Item(TextFile.path, Listing[0].node), Item(ImageFile.path, Listing[1].node)]

  /** The directory's children are its two entries, joined to ".". */
  lemma SampleChildren()
    ensures Children([CurDir], Listing) == Listed
  {
    var p := [CurDir];
    assert Join(p, "a.txt") == TextFile.path && Join(p, "b.jpg") == ImageFile.path;
    assert ChildOf(p, Listing[0]) == [Listed[0]];
    assert ChildOf(p, Listing[1]) == [Listed[1]];
    var first := [Listing[0]];
    assert first[..0] == [];
    assert Children(p, first) == Children(p, []) + ChildOf(p, Listing[0]);
    assert Listing[..1] == first;
    assert Children(p, Listing) == Children(p, first) + ChildOf(p, Listing[1]);
  }

  lemma SampleVisitChildren()
    ensures Walk.Walk(Listed) == [TextFile, ImageFile]
  {
    assert Listed[..1] == [Listed[0]] && [Listed[0]][..0] == [];
    assert Walk.Walk([Listed[0]]) == [TextFile];
  }

  /** The walk reports the two files in listing order. */
  lemma SampleWalk()
    ensures Walk.Walk(Roots) == [TextFile, ImageFile]
  {
    SampleChildren();
    SampleVisitChildren();
    assert Roots[..0] == [];
    assert Walk.Walk(Roots) == Visit([CurDir], Directory(Listing));
  }

  /** The extension keys of the two files. */
  lemma SampleExtensions()
    ensures GetExt(TextFile.path) == "txt" && GetExt(ImageFile.path) == "jpg"
  {
    assert "a.txt"[1] == '.' && LastDot("a.txt") == Some(1);
    assert "b.jpg"[1] == '.' && LastDot("b.jpg") == Some(1);
    assert Ascii.ToLowercase("txt") == "txt";
    assert Ascii.ToLowercase("jpg") == "jpg";
  }

  /** The receiver on the two entries, when they have the distinct keys `a` and `b`. */
  lemma SampleReceive(key: Path -> string, a: string, b: string)
    requires key(TextFile.path) == a && key(ImageFile.path) == b && a != b
    ensures Receive(key, [TextFile, ImageFile]) == State(300, {}, map[a := 100, b := 200], [])
  {
    ReceiveSnoc(key, [], TextFile);
    ReceiveSnoc(key, [TextFile], ImageFile);
    assert [] + [TextFile] == [TextFile] && [TextFile] + [ImageFile] == [TextFile, ImageFile];
    assert AddSize(map[], a, 100) == map[a := 100];
  }

  /** The Type-mode key of "a.txt". */
  lemma SampleTextType()
    ensures GroupKey(Cli.Type, TextFile.path) == "Document"
  {
    SampleExtensions();
    GetFiletypeKnownKeys("txt");
  }

  /** The Type-mode key of "b.jpg". */
  lemma SampleImageType()
    ensures GroupKey(Cli.Type, ImageFile.path) == "Image"
  {
    SampleExtensions();
    GetFiletypeKnownKeys("jpg");
  }

  /** Grouped by extension: 100 bytes of "txt", 200 of "jpg", 300 in all and no errors. */
  lemma SampleByExtension()
    ensures Receive(ModeKey(Cli.Extension), Walk.Walk(Roots)) == State(300, {}, map["txt" := 100, "jpg" := 200], [])
  {
    var key := ModeKey(Cli.Extension);
    SampleWalk();
    SampleExtensions();
    SampleReceive(key, "txt", "jpg");
  }

  /** Grouped by type: 100 bytes of "Document", 200 of "Image". */
  lemma SampleByType()
    ensures Receive(ModeKey(Cli.Type), Walk.Walk(Roots)) == State(300, {}, map["Document" := 100, "Image" := 200], [])
  {
    var key := ModeKey(Cli.Type);
    SampleWalk();
    SampleTextType();
    SampleImageType();
    SampleReceive(key, "Document", "Image");
  }
}
