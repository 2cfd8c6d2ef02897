/** The pure file-name helpers of the backend: Node's `path.extname` on
    POSIX paths, the lowercased extension, the extension allow-list test,
    the MIME table and the generated upload names. The clock and the UUID
    generator are parameters. */
module FileUtils {
  import opened Util

  /** Index of the last occurrence of `c`, if any */
  function LastIndex(s: string, c: char): (r: Option<nat>)
    ensures r.None? <==> c !in s
    ensures r.Some? ==> r.value < |s| && s[r.value] == c && c !in s[r.value + 1..]
  {
    if s == [] then None
    else if s[|s| - 1] == c then Some(|s| - 1)
    else
      var r := LastIndex(s[..|s| - 1], c);
      if r.Some? then
        assert s[r.value + 1..] == s[..|s| - 1][r.value + 1..] + [s[|s| - 1]];
        r
      else
        assert s == s[..|s| - 1] + [s[|s| - 1]];
        r
  }

  /** The last occurrence of `c` is the one after which `c` no longer occurs. */
  lemma {:induction false} LastIndexUnique(s: string, c: char, k: nat)
    requires k < |s| && s[k] == c && c !in s[k + 1..]
    ensures LastIndex(s, c) == Some(k)
  {
    var n := |s| - 1;
    if k < n {
      assert s[n] in s[k + 1..];
      assert s[..n][k + 1..] + [s[n]] == s[k + 1..];
      LastIndexUnique(s[..n], c, k);
    }
  }

  /** A character absent from a sequence is absent from every suffix. */
  lemma AbsentFromSuffix(s: string, k: nat, c: char)
    requires k <= |s| && c !in s
    ensures c !in s[k..]
  {
    assert forall i :: k <= i < |s| ==> s[i] in s;
  }

  /** The path without the slashes it ends with */
  function TrimTrailingSlashes(s: string): (r: string)
    ensures |r| <= |s| && r == s[..|r|]
    ensures r == [] || r[|r| - 1] != '/'
    ensures forall i :: |r| <= i < |s| ==> s[i] == '/'
  {
    if s != [] && s[|s| - 1] == '/' then TrimTrailingSlashes(s[..|s| - 1]) else s
  }

  /** The last segment of a POSIX path, trailing slashes ignored */
  function Basename(path: string): (b: string)
    ensures '/' !in b
  {
    var p := TrimTrailingSlashes(path);
    match LastIndex(p, '/')
    case None => p
    case Some(k) => p[k + 1..]
  }

  /** The last segment is a suffix of the path without its trailing slashes,
      preceded by a '/' unless it is that whole path. */
  lemma BasenameSuffix(path: string)
    ensures var p, b := TrimTrailingSlashes(path), Basename(path);
            |b| <= |p| && p[|p| - |b|..] == b && (|b| < |p| ==> p[|p| - |b| - 1] == '/')
  {
    var p := TrimTrailingSlashes(path);
    match LastIndex(p, '/')
    case None =>
      assert Basename(path) == p;
      assert p[|p| - |p|..] == p;
    case Some(k) =>
      assert Basename(path) == p[k + 1..];
      SegmentAfterSlash(p, k);
  }

  /** What follows a '/' is a proper suffix, preceded by that '/'. */
  lemma SegmentAfterSlash(p: string, k: nat)
    requires k < |p| && p[k] == '/'
    ensures var b := p[k + 1..]; |b| < |p| && p[|p| - |b|..] == b && p[|p| - |b| - 1] == '/'
  {
    assert |p| - |p[k + 1..]| == k + 1;
  }

  /** `path.extname(path)` (POSIX): from the last '.' of the last segment to
      its end, or "" when that segment has no '.', starts with its only
      dot-run before the extension (a leading '.'), or is "..". */
  function Extname(path: string): (x: string)
    ensures x == [] || (x[0] == '.' && '.' !in x[1..])
    ensures '/' !in x
  {
    SegmentExt(Basename(path))
  }

  /** The extension is a proper suffix of the last segment, and it is empty
      exactly when that segment is empty, has no '.' after its first
      character, or is "..". */
  lemma ExtnameSuffix(path: string)
    ensures var x, base := Extname(path), Basename(path);
            && (x != [] ==> |x| < |base| && base[|base| - |x|..] == x)
            && (x == [] <==> base == [] || '.' !in base[1..] || IsDotDot(base))
  {
  }

  /** The extension of one segment */
  function SegmentExt(base: string): (x: string)
    requires '/' !in base
    ensures x == [] || (x[0] == '.' && '.' !in x[1..])
    ensures '/' !in x
    ensures x != [] ==> |x| < |base| && base[|base| - |x|..] == x
    ensures x == [] <==> base == [] || '.' !in base[1..] || IsDotDot(base)
  {
    match LastIndex(base, '.')
    case None =>
      if base != [] then
        AbsentFromSuffix(base, 1, '.');
        ""
      else ""
    case Some(k) =>
      if k == 0 || IsDotDot(base) then ""
      else
        DotSuffix(base, k);
        assert base[1..][k - 1] == '.';
        base[k..]
  }

  /** The part of a segment from its last '.' on is an extension. */
  lemma DotSuffix(base: string, k: nat)
    requires k < |base| && base[k] == '.' && '.' !in base[k + 1..] && '/' !in base
    ensures var x := base[k..]; x[0] == '.' && '.' !in x[1..] && '/' !in x
  {
    assert base[k..][1..] == base[k + 1..];
    AbsentFromSuffix(base, k, '/');
  }

  /** The segment ".." */
  predicate IsDotDot(base: string) {
    |base| == 2 && base[0] == '.' && base[1] == '.'
  }

  /** `getFileExtension(filename)`: `extname(filename).toLowerCase().slice(1)`,
      written with the dot dropped before lowercasing, which gives the same
      string since case mapping works character by character */
  function GetFileExtension(filename: string): (ext: string)
    ensures '.' !in ext && '/' !in ext
    ensures forall i :: 0 <= i < |ext| ==> !('A' <= ext[i] <= 'Z')
  {
    var x := Extname(filename);
    if x == [] then []
    else
      AbsentFromSuffix(x, 1, '/');
      LowerAbsent(x[1..], '.');
      LowerAbsent(x[1..], '/');
      ToLower(x[1..])
  }

  /** Lowercasing never produces a character that is not a lower-case letter
      unless it was there already. */
  lemma LowerAbsent(s: string, c: char)
    requires c !in s && !('a' <= c <= 'z')
    ensures c !in ToLower(s)
  {
    forall i | 0 <= i < |s|
      ensures ToLower(s)[i] != c
    {
      assert ToLower(s)[i] == LowerChar(s[i]);
    }
  }

  lemma {:induction false} ToLowerTwice(s: string)
    ensures ToLower(ToLower(s)) == ToLower(s)
  {
    assert forall i :: 0 <= i < |s| ==> LowerChar(LowerChar(s[i])) == LowerChar(s[i]);
  }

  /** A name "stem.ext" whose extension has no '.' or '/' has the extension
      `ext`, lowercased (unless the name is ".."). */
  lemma ExtensionOf(stem: string, ext: string)
    requires stem != [] && '/' !in stem && '/' !in ext && '.' !in ext
    requires !(|stem| == 1 && stem[0] == '.' && ext == [])
    ensures GetFileExtension(stem + ['.'] + ext) == ToLower(ext)
  {
    var name := stem + ['.'] + ext;
    assert '/' !in name;
    assert name[|name| - 1] != '/';
    assert TrimTrailingSlashes(name) == name;
    assert Basename(name) == name;
    assert name[|stem| + 1..] == ext;
    LastIndexUnique(name, '.', |stem|);
    assert !IsDotDot(name);
    assert Extname(name)[1..] == ext;
  }

  /** A name without '.' in its last segment has no extension. */
  lemma NoExtension(name: string)
    requires '.' !in name && '/' !in name
    ensures GetFileExtension(name) == []
  {
    assert name == [] || name[|name| - 1] != '/';
    assert TrimTrailingSlashes(name) == name;
  }

  /** `isAllowedExtension(filename, allowed)` */
  predicate IsAllowedExtension(filename: string, allowed: seq<string>) {
    GetFileExtension(filename) in allowed
  }

  /** A name "stem.ext" is allowed exactly when its extension, lowercased,
      is in the list; a name without '.' only when "" is. */
  lemma AllowedExtensionOf(stem: string, ext: string, allowed: seq<string>)
    requires stem != [] && '/' !in stem && '/' !in ext && '.' !in ext
    requires !(|stem| == 1 && stem[0] == '.' && ext == [])
    ensures IsAllowedExtension(stem + ['.'] + ext, allowed) <==> ToLower(ext) in allowed
    ensures '.' !in stem ==> (IsAllowedExtension(stem, allowed) <==> [] in allowed)
  {
    ExtensionOf(stem, ext);
    if '.' !in stem {
      NoExtension(stem);
    }
  }

  /** The extensions with a known MIME type */
  const MimeTable: map<string, string> := map[
    "jpg" := "image/jpeg", "jpeg" := "image/jpeg", "png" := "image/png",
    "webp" := "image/webp", "gif" := "image/gif"]

  const OctetStream := "application/octet-stream"

  /** The MIME type of a name, looked up among the table's own keys */
  function GetMimeType(filename: string): (mime: string)
    ensures GetFileExtension(filename) in MimeTable ==> mime == MimeTable[GetFileExtension(filename)]
    ensures mime == OctetStream <==> GetFileExtension(filename) !in ["jpg", "jpeg", "png", "webp", "gif"]
    ensures mime in ["image/jpeg", "image/png", "image/webp", "image/gif", OctetStream]
  {
    MimeTableShape();
    var ext := GetFileExtension(filename);
    if ext in MimeTable then MimeTable[ext] else OctetStream
  }

  /** The table's keys are the five image extensions, and each maps to an
      image type. */
  lemma MimeTableShape()
    ensures forall e :: e in MimeTable <==> e in ["jpg", "jpeg", "png", "webp", "gif"]
    ensures forall e :: e in MimeTable ==> MimeTable[e] in ["image/jpeg", "image/png", "image/webp", "image/gif"]
    ensures OctetStream !in ["image/jpeg", "image/png", "image/webp", "image/gif"]
  {
    assert MimeTable.Keys == {"jpg", "jpeg", "png", "webp", "gif"};
  }

  /** What a property read on the MIME table's object literal yields: one of
      its own string values, or a member every object inherits */
  datatype Lookup = Text(s: string) | Inherited(key: string)

  /** The members of `Object.prototype` whose names are all lower case, the
      only ones a lowercased extension can hit */
  const InheritedKeys := {"constructor", "__proto__"}

  /** `mimeTypes[ext] || 'application/octet-stream'` as the code reads it:
      an inherited member is truthy and is returned in place of a string. */
  function GetMimeTypeAsWritten(filename: string): (r: Lookup)
    ensures r.Inherited? ==> r.key == GetFileExtension(filename) && r.key in InheritedKeys
  {
    var ext := GetFileExtension(filename);
    if ext in MimeTable then Text(MimeTable[ext])
    else if ext in InheritedKeys then Inherited(ext)
    else Text(OctetStream)
  }

  /** A file whose name ends in ".constructor" (for instance
      "chart.constructor") gets the Object constructor back instead of a MIME
      type. */
  lemma InheritedKeyLeaks(stem: string)
    requires stem != [] && '/' !in stem
    ensures GetMimeTypeAsWritten(stem + ['.'] + "constructor") == Inherited("constructor")
  {
    ConstructorPlain();
    ConstructorLower();
    ConstructorInherited();
    ExtensionOf(stem, "constructor");
  }

  lemma ConstructorPlain()
    ensures '.' !in "constructor" && '/' !in "constructor"
  {
  }

  lemma ConstructorLower()
    ensures ToLower("constructor") == "constructor"
  {
    LowerIdentity("constructor");
  }

  lemma ConstructorInherited()
    ensures "constructor" !in MimeTable && "constructor" in InheritedKeys
  {
  }

  lemma LowerIdentity(s: string)
    requires forall i :: 0 <= i < |s| ==> 'a' <= s[i] <= 'z'
    ensures ToLower(s) == s
  {
  }

  /** The own-key lookup agrees with the code on every other name. */
  lemma MimeTypeAgrees(filename: string)
    requires GetFileExtension(filename) !in InheritedKeys
    ensures GetMimeTypeAsWritten(filename) == Text(GetMimeType(filename))
  {
  }

  /** `generateUniqueFilename(originalName)`: `<now>-<first group of a v4
      UUID><lowercased extname>`, with `now` and the UUID given */
  function GenerateUniqueFilename(originalName: string, now: nat, uuid: string): (name: string)
    ensures StartsWith(name, NatToString(now) + "-")
  {
    NatToString(now) + "-" + Split(uuid, '-')[0] + ToLower(Extname(originalName))
  }

  /** Two names generated in the same millisecond differ whenever the first
      groups of their UUIDs differ, whatever the original names. */
  lemma UuidGroupSeparates(name1: string, name2: string, now: nat, uuid1: string, uuid2: string)
    requires '.' !in uuid1 && '.' !in uuid2
    requires Split(uuid1, '-')[0] != Split(uuid2, '-')[0]
    ensures GenerateUniqueFilename(name1, now, uuid1) != GenerateUniqueFilename(name2, now, uuid2)
  {
    var d := NatToString(now) + "-";
    var g1, g2 := Split(uuid1, '-')[0], Split(uuid2, '-')[0];
    var x1, x2 := ToLower(Extname(name1)), ToLower(Extname(name2));
    GroupOfUuid(uuid1);
    GroupOfUuid(uuid2);
    LowerKeepsDot(Extname(name1));
    LowerKeepsDot(Extname(name2));
    NameParts(name1, now, uuid1);
    NameParts(name2, now, uuid2);
    if GenerateUniqueFilename(name1, now, uuid1) == GenerateUniqueFilename(name2, now, uuid2) {
      PrefixCancel(d, g1 + x1, g2 + x2);
      GroupBeforeDot(g1, x1);
      GroupBeforeDot(g2, x2);
    }
  }

  /** A generated name is its time prefix followed by the group and the extension. */
  lemma NameParts(name: string, now: nat, uuid: string)
    ensures GenerateUniqueFilename(name, now, uuid) ==
            (NatToString(now) + "-") + (Split(uuid, '-')[0] + ToLower(Extname(name)))
  {
    AppendAssoc(NatToString(now) + "-", Split(uuid, '-')[0], ToLower(Extname(name)));
  }

  lemma AppendAssoc(a: string, b: string, c: string)
    ensures a + b + c == a + (b + c)
  {
  }

  lemma PrefixCancel(d: string, a: string, b: string)
    requires d + a == d + b
    ensures a == b
  {
    assert a == (d + a)[|d|..];
    assert b == (d + b)[|d|..];
  }

  /** A lowercased extension still starts with its dot. */
  lemma LowerKeepsDot(x: string)
    requires x == [] || x[0] == '.'
    ensures ToLower(x) == [] || ToLower(x)[0] == '.'
  {
  }

  /** The part of a name before its first '.' */
  function BeforeDot(s: string): (r: string)
    ensures '.' !in r && r <= s
  {
    if s == [] || s[0] == '.' then [] else [s[0]] + BeforeDot(s[1..])
  }

  /** A dot-free group followed by nothing or by something starting with '.'
      is read back as the part before the first '.'. */
  lemma {:induction false} GroupBeforeDot(g: string, x: string)
    requires '.' !in g && (x == [] || x[0] == '.')
    ensures BeforeDot(g + x) == g
  {
    if g != [] {
      assert (g + x)[0] == g[0];
      assert (g + x)[1..] == g[1..] + x;
      GroupBeforeDot(g[1..], x);
    }
  }

  /** The generated name keeps the original's extension, so it passes the
      same extension checks. */
  lemma UniqueNameKeepsExtension(originalName: string, now: nat, uuid: string)
    requires '.' !in uuid && '/' !in uuid
    ensures GetFileExtension(GenerateUniqueFilename(originalName, now, uuid)) == GetFileExtension(originalName)
  {
    var stem := NatToString(now) + "-" + Split(uuid, '-')[0];
    StemPlain(now, uuid);
    var x := Extname(originalName);
    assert GenerateUniqueFilename(originalName, now, uuid) == stem + ToLower(x);
    if x == [] {
      assert stem + ToLower(x) == stem;
      NoExtension(stem);
    } else {
      ExtensionAppended(stem, x);
    }
  }

  /** The part of a generated name before its extension holds no '.' or '/'. */
  lemma StemPlain(now: nat, uuid: string)
    requires '.' !in uuid && '/' !in uuid
    ensures var stem := NatToString(now) + "-" + Split(uuid, '-')[0];
            stem != [] && '.' !in stem && '/' !in stem
  {
    GroupOfUuid(uuid);
    DigitsOnly(NatToString(now));
  }

  /** An extension, lowercased, appended to a plain stem is that name's
      extension. */
  lemma ExtensionAppended(stem: string, x: string)
    requires stem != [] && '.' !in stem && '/' !in stem
    requires x != [] && x[0] == '.' && '.' !in x[1..] && '/' !in x
    ensures GetFileExtension(stem + ToLower(x)) == ToLower(x[1..])
  {
    var le := ToLower(x[1..]);
    LowerFromDot(x);
    var name := stem + ToLower(x);
    assert name == stem + ['.'] + le;
    ExtensionOf(stem, le);
    assert GetFileExtension(name) == ToLower(le);
    ToLowerTwice(x[1..]);
    assert ToLower(le) == le;
  }

  /** A lowercased extension is the dot followed by its lowercased rest, which
      holds no '.' or '/'. */
  lemma LowerFromDot(x: string)
    requires x != [] && x[0] == '.' && '.' !in x[1..] && '/' !in x
    ensures ToLower(x) == ['.'] + ToLower(x[1..])
    ensures '.' !in ToLower(x[1..]) && '/' !in ToLower(x[1..])
  {
    LowerAfterDot(x[1..]);
    assert x == ['.'] + x[1..];
    AbsentFromSuffix(x, 1, '/');
    LowerAbsent(x[1..], '.');
    LowerAbsent(x[1..], '/');
  }

  lemma LowerAfterDot(e: string)
    ensures ToLower(['.'] + e) == ['.'] + ToLower(e)
  {
    assert forall i :: 0 <= i < |e| ==> ToLower(['.'] + e)[i + 1] == LowerChar(e[i]);
  }

  /** A rendered number holds neither '.' nor '/'. */
  lemma DigitsOnly(s: string)
    requires forall i :: 0 <= i < |s| ==> IsDigit(s[i])
    ensures '.' !in s && '/' !in s
  {
  }

  /** The first group of a split holds only characters of the input. */
  lemma {:induction false} GroupOfUuid(s: string)
    ensures forall c :: c in Split(s, '-')[0] ==> c in s
  {
    if s != [] && s[0] != '-' {
      GroupOfUuid(s[1..]);
    }
  }
}
