/** The public-id extraction of `deleteImage` in `src/utils/image.ts`: the
    stored image URL is cut at '/', the segments from the second one after
    `upload` are joined again, and a final extension is removed. */
module Image {
  import opened Base
  import opened Js

  const DeletionFailed := "Image deletion failed"

  /** `parts.slice(start)` for `start >= 0`: empty when `start` is past
      the end. */
  function SliceFrom<T>(parts: seq<T>, start: nat): (r: seq<T>)
    ensures start <= |parts| ==> r == parts[start..]
    ensures start >= |parts| ==> r == []
  {
    if start <= |parts| then parts[start..] else []
  }

  /** `url.split("/").slice(url.split("/").indexOf("upload") + 2).join("/")`. */
  function PublicIdWithExt(url: string): (r: string)
    ensures var parts := Split(url, '/');
      var start := IndexOf(parts, "upload") + 2;
      (start < |parts| ==> Split(r, '/') == parts[start..])
      && (start >= |parts| ==> r == [])
  {
    var parts := Split(url, '/');
    var start := IndexOf(parts, "upload") + 2;
    var r := Join(SliceFrom(parts, start), '/');
    if start < |parts| then
      JoinSplit(url, '/');
      SplitJoin(parts[start..], '/');
      r
    else r
  }

  /** The position of the last `c` in `s`, or -1. */
  function LastIndexOf(s: string, c: char): (k: int)
    ensures -1 <= k < |s|
    ensures 0 <= k ==> s[k] == c
    ensures forall j :: k < j < |s| ==> s[j] != c
  {
    if s == [] then -1
    else if s[|s| - 1] == c then |s| - 1
    else LastIndexOf(s[..|s| - 1], c)
  }

  /** Where the pattern `/\.[^/.]+$/` matches `s`: a '.' followed, up to the
      end, by at least one character that is neither '/' nor '.'. */
  predicate ExtensionAt(s: string, i: int)
  {
    0 <= i < |s| - 1 && s[i] == '.' && forall j :: i < j < |s| ==> s[j] != '/' && s[j] != '.'
  }

  /** `s.replace(/\.[^/.]+$/, "")`. */
  function StripExtension(s: string): (r: string)
    ensures r != s ==> |r| < |s| && r == s[..|r|] && ExtensionAt(s, |r|)
    ensures r == s ==> forall i :: !ExtensionAt(s, i)
  {
    var k := LastIndexOf(s, '.');
    if 0 <= k < |s| - 1 && '/' !in s[k + 1..] then
      ExtensionAtLastDot(s, k);
      s[..k]
    else
      NoExtension(s, k);
      s
  }

  lemma ExtensionAtLastDot(s: string, k: int)
    requires k == LastIndexOf(s, '.') && 0 <= k < |s| - 1 && '/' !in s[k + 1..]
    ensures ExtensionAt(s, k)
  {
    forall j | k < j < |s| ensures s[j] != '/' {
      assert s[j] == s[k + 1..][j - k - 1];
    }
  }

  lemma NoExtension(s: string, k: int)
    requires k == LastIndexOf(s, '.') && !(0 <= k < |s| - 1 && '/' !in s[k + 1..])
    ensures forall i :: !ExtensionAt(s, i)
  {
    forall i | 0 <= i < k ensures !ExtensionAt(s, i) {
      assert s[k] == '.';
    }
    if 0 <= k < |s| - 1 {
      var j :| 0 <= j < |s[k + 1..]| && s[k + 1..][j] == '/';
      assert s[k + 1 + j] == '/';
    }
  }

  /** The public id `deleteImage` hands to Cloudinary. */
  function PublicId(url: string): string
  {
    StripExtension(PublicIdWithExt(url))
  }

  /** `deleteImage(url)`, with the outcome of `cloudinary.uploader.destroy`
      given as `destroyed`: the id it was asked to destroy, or the one
      error every failure becomes. */
  function DeleteImage(url: string, destroyed: string -> bool): (r: Result<string, string>)
    ensures r.Ok? <==> destroyed(PublicId(url))
    ensures r.Ok? ==> r.value == PublicId(url)
    ensures r.Err? ==> r.error == DeletionFailed
  {
    var id := PublicId(url);
    if destroyed(id) then Ok(id) else Err(DeletionFailed)
  }

  /** The URL of an upload, made of '/'-free segments: everything after the
      version segment that follows `upload` is the public id with its
      extension. */
  lemma {:induction false} UploadPath(before: seq<string>, version: string, path: seq<string>)
    requires "upload" !in before
    requires forall i :: 0 <= i < |before| ==> '/' !in before[i]
    requires '/' !in version && |path| >= 1
    requires forall i :: 0 <= i < |path| ==> '/' !in path[i]
    ensures PublicIdWithExt(Join(before + ["upload", version] + path, '/')) == Join(path, '/')
  {
    var segs := before + ["upload", version] + path;
    assert forall i :: 0 <= i < |segs| ==> '/' !in segs[i] by {
      forall i | 0 <= i < |segs| ensures '/' !in segs[i] {
        if i < |before| { assert segs[i] == before[i]; }
        else if i == |before| { assert segs[i] == "upload"; }
        else if i == |before| + 1 { assert segs[i] == version; }
        else { assert segs[i] == path[i - |before| - 2]; }
      }
    }
    SplitJoin(segs, '/');
    assert segs[|before|] == "upload" && "upload" !in segs[..|before|] by {
      assert segs[..|before|] == before;
    }
    IndexOfFirst(segs, "upload", |before|);
    assert segs[|before| + 2..] == path;
  }

  /** `indexOf` finds the first occurrence. */
  lemma IndexOfFirst<T>(xs: seq<T>, x: T, k: int)
    requires 0 <= k < |xs| && xs[k] == x && x !in xs[..k]
    ensures IndexOf(xs, x) == k
  {
  }

  /** Without an `upload` segment `indexOf` is -1 and the slice starts at
      the second segment: everything but the first segment is kept. */
  lemma {:induction false} NoUploadDropsFirst(segs: seq<string>)
    requires |segs| >= 2 && "upload" !in segs
    requires forall i :: 0 <= i < |segs| ==> '/' !in segs[i]
    ensures PublicIdWithExt(Join(segs, '/')) == Join(segs[1..], '/')
  {
    SplitJoin(segs, '/');
  }

  /** Only a final extension is removed: `"a.b.c"` becomes `"a.b"`. */
  lemma {:induction false} StripsLastExtension(stem: string, ext: string)
    requires |ext| >= 1 && '/' !in ext && '.' !in ext
    ensures StripExtension(stem + "." + ext) == stem
  {
    var s := stem + "." + ext;
    assert ExtensionAt(s, |stem|) by {
      forall j | |stem| < j < |s| ensures s[j] != '/' && s[j] != '.' {
        assert s[j] == ext[j - |stem| - 1];
      }
    }
    var r := StripExtension(s);
    ExtensionUnique(s, |r|, |stem|);
  }

  /** The pattern can match at one place only. */
  lemma ExtensionUnique(s: string, i: int, j: int)
    requires ExtensionAt(s, i) && ExtensionAt(s, j)
    ensures i == j
  {
  }

  /** The example of the extension rule: `"a.b.c"` keeps `"a.b"`. */
  lemma TwoDotsKeepOne()
    ensures StripExtension("a.b.c") == "a.b"
  {
    StripsLastExtension("a.b", "c");
    assert "a.b" + "." + "c" == "a.b.c";
  }

  /** A dot before the last '/' is no extension: such ids stay whole. */
  lemma {:induction false} DotInFolderKept(folder: string, name: string)
    requires '.' !in name
    ensures StripExtension(folder + "/" + name) == folder + "/" + name
  {
    var s := folder + "/" + name;
    forall i | 0 <= i < |s| ensures !ExtensionAt(s, i) {
      if i <= |folder| {
        assert s[|folder|] == '/';
      } else {
        assert s[i] == name[i - |folder| - 1];
      }
    }
  }
}
