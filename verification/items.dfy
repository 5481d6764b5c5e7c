/**
 * Listing items and the pure helpers that classify them from their name and
 * MIME-like type.
 */
module Items {
  import opened Strings

  /** Top-level storage prefix: every folder lives at `projects/<id>/`. */
  const StorageRoot: string := "projects"

  /** Per-folder metadata marker; it is never listed as a file. */
  const MarkerName: string := "__folder__.json"

  /**
   * A listing entry. Folders come from storage prefixes (display name from the
   * marker), files from the objects inside one folder.
   */
  datatype Item =
    | Folder(id: string, name: string)
    | File(id: string, name: string, fileType: string, filePath: string)

  /** `it.fileType || ''`: folders carry no type. */
  function FileTypeOf(it: Item): string {
    if it.File? then it.fileType else ""
  }

  /** Folder id derived from a user-typed name (`folderIdFromName`). */
  function FolderIdFromName(name: string): (id: string)
    ensures IsTrimmed(id) && ToLower(id) == id
    ensures Normalize(id) == id
  {
    NormalizeIdempotent(name);
    Normalize(name)
  }

  /** A name made of a trimmed core padded with whitespace gives the core, lower-cased. */
  lemma FolderIdOfPadded(pre: string, x: string, post: string)
    requires AllWhitespace(pre) && AllWhitespace(post) && IsTrimmed(x)
    ensures FolderIdFromName(pre + x + post) == ToLower(x)
  {
    TrimOfPadded(pre, x, post);
  }

  /** Two names that differ only in letter case or surrounding whitespace give the same folder id. */
  lemma FolderIdCollapses(pre: string, name: string, post: string)
    requires AllWhitespace(pre) && AllWhitespace(post)
    ensures FolderIdFromName(pre + name + post) == FolderIdFromName(name)
    ensures FolderIdFromName(ToLower(name)) == FolderIdFromName(name)
  {
    NormalizeIgnoresPaddingAndCase(pre, name, post);
  }

  // ---- 3D models ----

  const ModelExts: seq<string> :=
    [".stl", ".slt", ".obj", ".fbx", ".gltf", ".glb", ".3mf", ".ply", ".step", ".stp", ".iges", ".igs", ".x_t", ".sldprt"]

  /** Substrings of the type that mark a model (no "slt", "x_t" or "sldprt" here). */
  const ModelTypeKeys: seq<string> :=
    ["stl", "obj", "fbx", "gltf", "glb", "3mf", "ply", "step", "stp", "iges", "igs"]

  predicate HasModelExt(lowerName: string) {
    exists e | e in ModelExts :: EndsWith(lowerName, e)
  }

  predicate HasModelTypeKey(lowerType: string) {
    exists k | k in ModelTypeKeys :: Contains(lowerType, k)
  }

  /** `isModelItem`: a file whose name has a model extension or whose type names a model format. */
  predicate IsModelItem(it: Item) {
    it.File? && (HasModelExt(ToLower(it.name)) || HasModelTypeKey(ToLower(it.fileType)))
  }

  lemma LowerUpperChar(c: char)
    ensures LowerChar(UpperChar(c)) == LowerChar(c)
  {
  }

  /** Lower-casing an upper-cased string is lower-casing it. */
  lemma LowerOfUpper(s: string)
    ensures ToLower(ToUpper(s)) == ToLower(s)
  {
    forall i | 0 <= i < |s| ensures ToLower(ToUpper(s))[i] == ToLower(s)[i] {
      LowerUpperChar(s[i]);
    }
  }

  /** Model detection ignores the letter case of the name and of the type. */
  lemma ModelDetectionIgnoresCase(it: Item)
    requires it.File?
    ensures IsModelItem(it.(name := ToUpper(it.name))) == IsModelItem(it)
    ensures IsModelItem(it.(fileType := ToUpper(it.fileType))) == IsModelItem(it)
  {
    LowerOfUpper(it.name);
    LowerOfUpper(it.fileType);
  }

  // ---- icons ----

  datatype Icon = ImageIcon | PdfIcon | ModelIcon | ArchiveIcon | AudioIcon | VideoIcon | OtherIcon

  /**
   * `getFileIcon`: the first matching rule wins. Only the image rule reads the
   * type without lower-casing it.
   */
  function GetFileIcon(it: Item): Icon {
    var name := ToLower(it.name);
    var ft := ToLower(FileTypeOf(it));
    if StartsWith(FileTypeOf(it), "image/") then ImageIcon
    else if Contains(ft, "pdf") || EndsWith(name, ".pdf") then PdfIcon
    else if IsModelItem(it) then ModelIcon
    else if Contains(ft, "zip") || EndsWith(name, ".zip") || EndsWith(name, ".rar") then ArchiveIcon
    else if Contains(ft, "audio") || EndsWith(name, ".mp3") || EndsWith(name, ".wav") then AudioIcon
    else if Contains(ft, "video") || EndsWith(name, ".mp4") || EndsWith(name, ".mov") then VideoIcon
    else OtherIcon
  }

  // ---- types inferred from the extension ----

  const PdfType: string := "application/pdf"
  const ImageType: string := "image/*"
  const ModelType: string := "model/3d"

  predicate HasImageExt(lowerName: string) {
    || EndsWith(lowerName, ".png") || EndsWith(lowerName, ".jpg") || EndsWith(lowerName, ".jpeg")
    || EndsWith(lowerName, ".gif") || EndsWith(lowerName, ".webp")
  }

  /** The smaller extension list `loadFolderFiles` maps to a model type. */
  predicate HasViewerModelExt(lowerName: string) {
    || EndsWith(lowerName, ".stl") || EndsWith(lowerName, ".slt") || EndsWith(lowerName, ".obj")
    || EndsWith(lowerName, ".gltf") || EndsWith(lowerName, ".glb")
  }

  /** The best-effort type `loadFolderFiles` gives a listed object. */
  function InferFileType(name: string): string {
    var lower := ToLower(name);
    if EndsWith(lower, ".pdf") then PdfType
    else if HasImageExt(lower) then ImageType
    else if HasViewerModelExt(lower) then ModelType
    else ""
  }

  /** The inferred type picks the icon the name's extension calls for. */
  lemma IconOfInferredType(id: string, name: string, path: string)
    ensures var it := File(id, name, InferFileType(name), path);
      var lower := ToLower(name);
      && (EndsWith(lower, ".pdf") ==> GetFileIcon(it) == PdfIcon)
      && (!EndsWith(lower, ".pdf") && HasImageExt(lower) ==> GetFileIcon(it) == ImageIcon)
      && (!EndsWith(lower, ".pdf") && !HasImageExt(lower) && HasViewerModelExt(lower)
          ==> GetFileIcon(it) == ModelIcon)
  {
    var lower := ToLower(name);
    if EndsWith(lower, ".pdf") {
      PdfNameIcon(id, name, path);
    } else if HasImageExt(lower) {
      assert InferFileType(name) == ImageType;
      assert StartsWith(ImageType, "image/");
    } else if HasViewerModelExt(lower) {
      ModelNameIcon(id, name, path);
    }
  }

  lemma PdfNameIcon(id: string, name: string, path: string)
    requires EndsWith(ToLower(name), ".pdf")
    ensures GetFileIcon(File(id, name, InferFileType(name), path)) == PdfIcon
  {
    assert InferFileType(name) == PdfType;
    assert !StartsWith(PdfType, "image/") by {
      assert PdfType[..6] != "image/" by { assert PdfType[0] == 'a'; }
    }
    LowerOfPdfType();
  }

  lemma ModelNameIcon(id: string, name: string, path: string)
    requires !EndsWith(ToLower(name), ".pdf") && !HasImageExt(ToLower(name)) && HasViewerModelExt(ToLower(name))
    ensures GetFileIcon(File(id, name, InferFileType(name), path)) == ModelIcon
  {
    var lower := ToLower(name);
    assert InferFileType(name) == ModelType;
    assert !StartsWith(ModelType, "image/") by {
      assert ModelType[..6] != "image/" by { assert ModelType[0] == 'm'; }
    }
    ModelTypeNotPdf();
    ViewerModelExtIsModelExt(lower);
    assert IsModelItem(File(id, name, ModelType, path));
  }

  lemma LowerOfPdfType()
    ensures Contains(ToLower(PdfType), "pdf")
  {
    assert ToLower(PdfType) == PdfType;
    assert OccursAt(PdfType, "pdf", 12);
  }

  lemma ModelTypeNotPdf()
    ensures !Contains(ToLower(ModelType), "pdf")
  {
    assert ToLower(ModelType) == ModelType;
    forall i | 0 <= i <= |ModelType| - 3 ensures !OccursAt(ModelType, "pdf", i) {
      assert ModelType[i] != 'p';
    }
  }

  lemma ViewerModelExtIsModelExt(lower: string)
    requires HasViewerModelExt(lower)
    ensures HasModelExt(lower)
  {
    if EndsWith(lower, ".stl") { assert ".stl" in ModelExts; }
    else if EndsWith(lower, ".slt") { assert ".slt" in ModelExts; }
    else if EndsWith(lower, ".obj") { assert ".obj" in ModelExts; }
    else if EndsWith(lower, ".gltf") { assert ".gltf" in ModelExts; }
    else { assert ".glb" in ModelExts; }
  }

  /**
   * A listed file's inferred type never names a model format by itself, so it
   * is a model exactly when its name carries one of the model extensions.
   */
  lemma InferredModelIsModelExt(id: string, name: string, path: string)
    ensures IsModelItem(File(id, name, InferFileType(name), path)) <==> HasModelExt(ToLower(name))
  {
    var t := InferFileType(name);
    if t == PdfType {
      PdfTypeNamesNoModel();
    } else if t == ImageType {
      ImageTypeNamesNoModel();
    } else if t == ModelType {
      ModelTypeNamesNoModel();
    } else {
      assert t == "" && ToLower(t) == t;
      NoModelTypeKey(t);
    }
  }

  lemma PdfTypeNamesNoModel()
    ensures !HasModelTypeKey(ToLower(PdfType))
  {
    assert ToLower(PdfType) == PdfType;
    assert 's' !in PdfType && 'b' !in PdfType && 'y' !in PdfType && 'g' !in PdfType && '3' !in PdfType;
    NoModelTypeKey(PdfType);
  }

  lemma ImageTypeNamesNoModel()
    ensures !HasModelTypeKey(ToLower(ImageType))
  {
    assert ToLower(ImageType) == ImageType;
    assert 's' !in ImageType && 'b' !in ImageType && 'y' !in ImageType && 'l' !in ImageType && '3' !in ImageType;
    NoModelTypeKey(ImageType);
  }

  lemma ModelTypeNamesNoModel()
    ensures !HasModelTypeKey(ToLower(ModelType))
  {
    assert ToLower(ModelType) == ModelType;
    assert 's' !in ModelType && 'b' !in ModelType && 'y' !in ModelType && 'g' !in ModelType && 'f' !in ModelType;
    NoModelTypeKey(ModelType);
  }

  /** A type lacking the letters every model key needs names no model format. */
  lemma NoModelTypeKey(t: string)
    requires 's' !in t && 'b' !in t && 'y' !in t
    requires ('g' !in t || 'l' !in t) && ('3' !in t || 'f' !in t)
    ensures !HasModelTypeKey(t)
  {
    forall k | k in ModelTypeKeys ensures !Contains(t, k) {
      var j :| 0 <= j < |ModelTypeKeys| && ModelTypeKeys[j] == k;
      if j == 0 || j >= 7 {
        assert 's' in k;
        MissingCharNoContains(t, k, 's');
      } else if j == 1 || j == 2 || j == 4 {
        assert 'b' in k;
        MissingCharNoContains(t, k, 'b');
      } else if j == 6 {
        assert 'y' in k;
        MissingCharNoContains(t, k, 'y');
      } else if j == 3 {
        assert 'g' in k && 'l' in k;
        if 'g' !in t { MissingCharNoContains(t, k, 'g'); } else { MissingCharNoContains(t, k, 'l'); }
      } else {
        assert '3' in k && 'f' in k;
        if '3' !in t { MissingCharNoContains(t, k, '3'); } else { MissingCharNoContains(t, k, 'f'); }
      }
    }
  }

  // ---- extension badge ----

  /** `k` is the position of the last '.' in `n`. */
  predicate LastDotAt(n: string, k: int) {
    0 <= k < |n| && n[k] == '.' && forall j | k < j < |n| :: n[j] != '.'
  }

  /**
   * `getFileExtension`: the text after the last dot of the trimmed name,
   * upper-cased; empty when there is no dot, the dot is the first character
   * (a dot-file) or the last one.
   */
  function GetFileExtension(name: string): (r: string)
    ensures var n := Trim(name);
      r == "" <==> ('.' !in n || LastDotAt(n, 0) || LastDotAt(n, |n| - 1))
    ensures var n := Trim(name);
      r != "" ==> '.' !in r && exists k :: LastDotAt(n, k) && r == ToUpper(n[k + 1..])
  {
    ExtensionAfterLastDot(Trim(name))
  }

  function ExtensionAfterLastDot(n: string): (r: string)
    ensures r == "" <==> ('.' !in n || LastDotAt(n, 0) || LastDotAt(n, |n| - 1))
    ensures r != "" ==> '.' !in r && exists k :: LastDotAt(n, k) && r == ToUpper(n[k + 1..])
  {
    var idx := LastIndexOf(n, '.');
    if idx <= 0 || idx == |n| - 1 then
      assert idx == -1 ==> '.' !in n;
      assert idx >= 0 ==> LastDotAt(n, idx);
      ""
    else
      assert LastDotAt(n, idx);
      assert '.' !in n[idx + 1..];
      CaseMappingKeepsDots(n[idx + 1..]);
      ToUpper(n[idx + 1..])
  }

  lemma LastDotUnique(n: string, k: int, m: int)
    requires LastDotAt(n, k) && LastDotAt(n, m)
    ensures k == m
  {
  }

  /** A name split as stem + "." + ext (stem non-empty, ext non-empty and dot-free) has badge ToUpper(ext). */
  lemma ExtensionOfSplit(name: string, stem: string, ext: string)
    requires Trim(name) == stem + "." + ext
    requires stem != "" && ext != "" && '.' !in ext
    ensures GetFileExtension(name) == ToUpper(ext)
  {
    SplitExtension(Trim(name), stem, ext);
  }

  lemma SplitExtension(n: string, stem: string, ext: string)
    requires n == stem + "." + ext
    requires stem != "" && ext != "" && '.' !in ext
    ensures ExtensionAfterLastDot(n) == ToUpper(ext)
  {
    var k := |stem|;
    assert LastDotAt(n, k) by {
      forall j | k < j < |n| ensures n[j] != '.' {
        assert n[j] == ext[j - k - 1];
      }
    }
    assert n[k + 1..] == ext;
    var r := ExtensionAfterLastDot(n);
    if r == "" {
      if LastDotAt(n, 0) { LastDotUnique(n, 0, k); }
      if LastDotAt(n, |n| - 1) { LastDotUnique(n, |n| - 1, k); }
    } else {
      var m :| LastDotAt(n, m) && r == ToUpper(n[m + 1..]);
      LastDotUnique(n, k, m);
    }
  }
}
