/**
  The image helpers of `services/imageUpload.js`: the pre-flight check an
  admin's file must pass, the storage path an upload is stored under, and
  the early exits of upload and delete when no client is configured. The
  clock reading and the random id that name a new object are parameters,
  and so are the outcome of the storage call and the public URL it serves.
 */
module ImageUpload {
  import opened Js
  import opened Supabase

  /** A browser `File`: its name, its declared MIME type and its size in bytes. */
  datatype File = File(name: string, mimeType: string, size: nat)

  /** What a successful upload reports: the public URL and the storage path. */
  datatype Upload = Upload(url: string, path: string)

  const AllowedTypes: seq<string> := ["image/jpeg", "image/jpg", "image/png", "image/webp"]

  /** 5 MiB, in bytes. */
  const MaxSize: nat := 5 * 1024 * 1024

  const TypeMessage: string := "Please select a valid image file (JPEG, PNG, or WebP)"
  const SizeMessage: string := "Image file size must be less than 5MB"

  const DefaultFolder: string := "products"

  // ---------------------------------------------------------------------------
  // validateImageFile
  // ---------------------------------------------------------------------------

  /**
    `validateImageFile(file)`: `None` (`null`) when the file is acceptable,
    otherwise the message for the first check it fails, type before size.
   */
  function ValidateImageFile(file: File): (error: Option<string>)
    ensures error.None? <==> file.mimeType in AllowedTypes && file.size <= MaxSize
    ensures file.mimeType !in AllowedTypes ==> error == Some(TypeMessage)
    ensures file.mimeType in AllowedTypes && file.size > MaxSize ==> error == Some(SizeMessage)
  {
    if file.mimeType !in AllowedTypes then Some(TypeMessage)
    else if file.size > MaxSize then Some(SizeMessage)
    else None
  }

  /** The boundary cases of the check: a GIF, a small PNG, and files at and just over 5 MiB. */
  lemma ValidationCases(name: string)
    ensures MaxSize == 5242880
    ensures ValidateImageFile(File(name, "image/gif", 1024)) == Some(TypeMessage)
    ensures ValidateImageFile(File(name, "image/gif", 5242881)) == Some(TypeMessage)
    ensures ValidateImageFile(File(name, "image/png", 1024)) == None
    ensures ValidateImageFile(File(name, "image/jpeg", 5242880)) == None
    ensures ValidateImageFile(File(name, "image/jpeg", 5242881)) == Some(SizeMessage)
  {
    assert "image/gif" != AllowedTypes[0] && "image/gif" != AllowedTypes[1];
    assert "image/gif" != AllowedTypes[2] && "image/gif" != AllowedTypes[3];
    assert "image/png" == AllowedTypes[2] && "image/jpeg" == AllowedTypes[0];
  }

  // ---------------------------------------------------------------------------
  // The storage path built inside uploadImage
  // ---------------------------------------------------------------------------

  /** `name.split('.').pop()`: what follows the last `.`, or the whole name when there is none. */
  function Extension(name: string): (ext: string)
    ensures '.' !in ext
    ensures IsTailAfterSeparator(name, ext, '.')
  {
    LastPieceIsTail(name, '.');
    Last(Split(name, '.'))
  }

  /**
    `${folder}/${timestamp}_${randomId}.${fileExtension}`: the object lands
    in `folder` and keeps the extension of the file it came from.
   */
  function FilePath(folder: string, timestamp: nat, randomId: string, name: string): (path: string)
    ensures |path| > |folder| + 1 && path[..|folder| + 1] == folder + "/"
    ensures Extension(path) == Extension(name)
  {
    var ext := Extension(name);
    var base := folder + "/" + NatToDecimal(timestamp) + "_" + randomId;
    TailAfterLastSeparator(base, '.', ext);
    base + "." + ext
  }

  /** In a file name, the first `_` is the one right after the timestamp's digits. */
  lemma {:induction false} UnderscoreEndsStamp(digits: string, rest: string)
    requires forall j :: 0 <= j < |digits| ==> IsDecimalDigit(digits[j])
    ensures IndexOf(digits + "_" + rest, '_') == |digits|
  {
    var s := digits + "_" + rest;
    if digits != [] {
      assert s[0] == digits[0] != '_';
      assert s[1..] == digits[1..] + "_" + rest;
      UnderscoreEndsStamp(digits[1..], rest);
    }
  }

  /** Equal strings with the same prefix and suffix have the same middle. */
  lemma SameMiddle(prefix: string, m1: string, m2: string, suffix: string)
    requires prefix + m1 + suffix == prefix + m2 + suffix
    ensures m1 == m2
  {
    var s := prefix + m1 + suffix;
    assert |m1| == |m2|;
    assert m1 == s[|prefix|..|prefix| + |m1|];
    assert m2 == (prefix + m2 + suffix)[|prefix|..|prefix| + |m2|];
  }

  /**
    Two uploads of the same file into the same folder get the same path
    only when they share both the timestamp and the random id.
   */
  lemma PathsSeparateUploads(folder: string, t1: nat, r1: string, t2: nat, r2: string, name: string)
    requires FilePath(folder, t1, r1, name) == FilePath(folder, t2, r2, name)
    ensures t1 == t2 && r1 == r2
  {
    var d1, d2 := NatToDecimal(t1), NatToDecimal(t2);
    var m1, m2 := d1 + "_" + r1, d2 + "_" + r2;
    PathShape(folder, t1, r1, name);
    PathShape(folder, t2, r2, name);
    SameMiddle(folder + "/", m1, m2, "." + Extension(name));
    UnderscoreEndsStamp(d1, r1);
    UnderscoreEndsStamp(d2, r2);
    assert d1 == m1[..|d1|] == d2;
    assert r1 == m1[|d1| + 1..] == r2;
    DecimalInjective(t1, t2);
  }

  /** Equal strings with the same suffix have the same prefix. */
  lemma SameFront(a: string, b: string, z: string)
    requires a + z == b + z
    ensures a == b
  {
    assert a == (a + z)[..|a|];
    assert b == (b + z)[..|b|];
  }

  /** When `f1 + [c] + m1 == f2 + [c] + m2` and `m1` is the shorter tail, the `c` before `m1` lies in `m2`. */
  lemma LongerTailHoldsSeparator(f1: string, m1: string, f2: string, m2: string, c: char)
    requires f1 + [c] + m1 == f2 + [c] + m2
    requires |m1| < |m2|
    ensures c in m2
  {
    var s := f1 + [c] + m1;
    assert s[|s| - |m1| - 1] == c;
    assert m2[|m2| - |m1| - 1] == s[|s| - |m1| - 1];
  }

  /** Two strings `f + [c] + m` with `c` absent from both `m`s split the same way at their last `c`. */
  lemma SplitAtLastSeparator(f1: string, m1: string, f2: string, m2: string, c: char)
    requires c !in m1 && c !in m2
    requires f1 + [c] + m1 == f2 + [c] + m2
    ensures f1 == f2 && m1 == m2
  {
    if |m1| < |m2| {
      LongerTailHoldsSeparator(f1, m1, f2, m2, c);
      assert false;
    } else if |m2| < |m1| {
      LongerTailHoldsSeparator(f2, m2, f1, m1, c);
      assert false;
    } else {
      var s := f1 + [c] + m1;
      assert m1 == s[|s| - |m1|..] == m2;
      assert f1 == s[..|f1|] == f2;
    }
  }

  /**
    With random ids free of `/`, as the base-36 ids of `Math.random().toString(36)`
    are, two uploads of the same file get the same path only when folder,
    timestamp and random id all match.
   */
  lemma PathsSeparateAcrossFolders(f1: string, t1: nat, r1: string, f2: string, t2: nat, r2: string,
                                   name: string)
    requires '/' !in r1 && '/' !in r2
    requires FilePath(f1, t1, r1, name) == FilePath(f2, t2, r2, name)
    ensures f1 == f2 && t1 == t2 && r1 == r2
  {
    var d1, d2 := NatToDecimal(t1), NatToDecimal(t2);
    var m1, m2 := d1 + "_" + r1, d2 + "_" + r2;
    var tail := "." + Extension(name);
    PathShape(f1, t1, r1, name);
    PathShape(f2, t2, r2, name);
    assert (f1 + "/" + m1) + tail == (f2 + "/" + m2) + tail;
    SameFront(f1 + "/" + m1, f2 + "/" + m2, tail);
    assert '/' !in d1 && '/' !in d2 by {
      assert !IsDecimalDigit('/');
    }
    assert '/' !in m1 && '/' !in m2;
    SplitAtLastSeparator(f1, m1, f2, m2, '/');
    PathsSeparateUploads(f1, t1, r1, t2, r2, name);
  }

  /**
    Without the restriction on random ids, the path alone does not separate
    uploads across folders: a random id holding `/` can shift part of the
    name into the folder.
   */
  lemma CrossFolderCollision()
    ensures FilePath("b/1_q", 2, "x", "f.png") == FilePath("b", 1, "q/2_x", "f.png")
  {
    var one, two := NatToDecimal(1), NatToDecimal(2);
    assert one == "1" && two == "2";
    assert ("b/1_q" + "/") + (two + "_" + "x") == ("b" + "/") + (one + "_" + "q/2_x") by {
      assert ("b/1_q" + "/") + ("2" + "_" + "x") == "b/1_q/2_x";
      assert ("b" + "/") + ("1" + "_" + "q/2_x") == "b/1_q/2_x";
    }
    SameStemSamePath("b/1_q", 2, "x", "b", 1, "q/2_x", "f.png");
  }

  /** Two uploads whose folder, timestamp and random id spell the same text share a path. */
  lemma SameStemSamePath(f1: string, t1: nat, r1: string, f2: string, t2: nat, r2: string, name: string)
    requires (f1 + "/") + (NatToDecimal(t1) + "_" + r1) == (f2 + "/") + (NatToDecimal(t2) + "_" + r2)
    ensures FilePath(f1, t1, r1, name) == FilePath(f2, t2, r2, name)
  {
    PathShape(f1, t1, r1, name);
    PathShape(f2, t2, r2, name);
  }


  /** A path is its folder prefix, then the timestamp and random id, then the extension. */
  lemma PathShape(folder: string, t: nat, r: string, name: string)
    ensures FilePath(folder, t, r, name)
         == (folder + "/") + (NatToDecimal(t) + "_" + r) + ("." + Extension(name))
  {
  }

  // ---------------------------------------------------------------------------
  // uploadImage and deleteImage
  // ---------------------------------------------------------------------------

  /** The `folder` parameter with its default. */
  function FolderOrDefault(folder: Option<string>): (f: string)
    ensures folder.None? ==> f == DefaultFolder
    ensures folder.Some? ==> f == folder.value
  {
    match folder
    case None => DefaultFolder
    case Some(f) => f
  }

  /**
    `uploadImage(file, folder)`: `null` without a client, before any storage
    call; `null` when the storage call fails; otherwise the public URL of
    the generated path, and that path.
   */
  function UploadImage(client: Option<Client>, file: File, folder: Option<string>, timestamp: nat,
                       randomId: string, storage: Remote<()>, publicUrl: string -> string)
    : (r: Option<Upload>)
    ensures !IsConfigured(client) ==> r.None?
    ensures r.Some? <==> IsConfigured(client) && storage.Ok?
    ensures r.Some? ==> && r.value.path == FilePath(FolderOrDefault(folder), timestamp, randomId, file.name)
                        && r.value.url == publicUrl(r.value.path)
  {
    if !IsConfigured(client) then None
    else
      var filePath := FilePath(FolderOrDefault(folder), timestamp, randomId, file.name);
      match storage
      case Err => None
      case Ok(_) => Some(Upload(publicUrl(filePath), filePath))
  }

  /** Without an explicit folder, every successful upload is stored under `products/`. */
  lemma DefaultFolderPaths(client: Option<Client>, file: File, timestamp: nat, randomId: string,
                           publicUrl: string -> string)
    requires IsConfigured(client)
    ensures var r := UploadImage(client, file, None, timestamp, randomId, Ok(()), publicUrl);
      r.Some? && |r.value.path| > 9 && r.value.path[..9] == "products/"
  {
  }

  /** `deleteImage(path)`: `false` without a client, before any storage call, or on failure. */
  function DeleteImage(client: Option<Client>, path: string, storage: Remote<()>): (deleted: bool)
    ensures !IsConfigured(client) ==> !deleted
    ensures deleted <==> IsConfigured(client) && storage.Ok?
  {
    if !IsConfigured(client) then false
    else storage.Ok?
  }
}
