/** The naming part of the local-storage avatar upload of the artists
    service: how the uploaded file and its thumbnail are named, where they
    are stored and which URIs are handed back. Thumbnail rendering and the
    file writes are left out; URI syntax checking is a parameter. */
module AvatarNaming {
  import opened Wrappers
  import opened JavaStrings

  /** The injected settings, with the defaults below. */
  datatype AvatarStorageConfig = AvatarStorageConfig(
    localStorageAvatarPath: string,
    remoteStorageAvatarPath: string,
    thumbnailPrefix: string)

  /** "/data/artist/{0}/avatar/{1}" */
  const DefaultLocalStorageAvatarPath := "/data/artist/" + "{0}" + "/avatar/" + "{1}"
  /** "/artist/{0}/avatar/{1}" */
  const DefaultRemoteStorageAvatarPath := "/artist/" + "{0}" + "/avatar/" + "{1}"
  const DefaultThumbnailPrefix := "thumbnail_"
  const ThumbnailExtension := ".jpg"

  const DefaultConfig := AvatarStorageConfig(
    DefaultLocalStorageAvatarPath, DefaultRemoteStorageAvatarPath, DefaultThumbnailPrefix)

  /** The failures of the naming steps.
      - `FilenameMissing`: the `IllegalStateException` for a null original filename;
      - `FilenameHasNoExtension`: the `StringIndexOutOfBoundsException` of
        `substring(0, -1)`, which the upload does not catch;
      - `FileContentIsCorrupted`: what a `URISyntaxException` is turned into. */
  datatype AvatarError = FilenameMissing | FilenameHasNoExtension | FileContentIsCorrupted

  /** The two files written and the two URIs returned. */
  datatype UploadedAvatar = UploadedAvatar(
    avatarFile: string,
    thumbnailFile: string,
    avatarUri: string,
    thumbnailUri: string)

  // ---------------------------------------------------------------------
  // replaceAll("\\s+", "_")
  // ---------------------------------------------------------------------

  /** `s` without its leading run of `\s` characters. */
  function SkipSpaces(s: string): (r: string)
    ensures |r| <= |s|
    ensures r == [] || !IsRegexSpace(r[0])
    ensures forall i :: 0 <= i < |s| - |r| ==> IsRegexSpace(s[i])
  {
    if s != [] && IsRegexSpace(s[0]) then SkipSpaces(s[1..]) else s
  }

  /** What `SkipSpaces` returns is the rest of `s`, from where the run ends. */
  lemma {:induction false} SkipSpacesIsSuffix(s: string)
    ensures SkipSpaces(s) == s[|s| - |SkipSpaces(s)|..]
  {
    if s != [] && IsRegexSpace(s[0]) {
      SkipSpacesIsSuffix(s[1..]);
      var k := |s[1..]| - |SkipSpaces(s[1..])|;
      assert s[1..][k..] == s[k + 1..];
    }
  }

  /** A run of `\s` characters in front of a part that does not start with
      one is skipped entirely. */
  lemma {:induction false} SkipSpacesRun(run: string, b: string)
    requires forall i :: 0 <= i < |run| ==> IsRegexSpace(run[i])
    requires b == [] || !IsRegexSpace(b[0])
    ensures SkipSpaces(run + b) == b
  {
    if run == [] {
      assert run + b == b;
    } else {
      var s := run + b;
      assert s[0] == run[0] && s[1..] == run[1..] + b;
      SkipSpacesRun(run[1..], b);
    }
  }

  /** The characters a sanitisation neither removes nor inserts: all but
      `\s` characters and underscores, in order. */
  function Kept(s: string): string {
    if s == [] then []
    else if IsRegexSpace(s[0]) || s[0] == '_' then Kept(s[1..])
    else [s[0]] + Kept(s[1..])
  }

  /** `Kept` drops only `\s` characters and underscores. */
  lemma {:induction false} KeptMembership(s: string, c: char)
    requires !IsRegexSpace(c) && c != '_'
    ensures c in Kept(s) <==> c in s
  {
    if s != [] {
      KeptMembership(s[1..], c);
      assert s == [s[0]] + s[1..];
    }
  }

  function CountChar(c: char, s: string): nat {
    if s == [] then 0 else (if s[0] == c then 1 else 0) + CountChar(c, s[1..])
  }

  /** The number of maximal runs of `\s` characters in `s`. */
  function WhitespaceRuns(s: string): nat
    decreases |s|
  {
    if s == [] then 0
    else if IsRegexSpace(s[0]) then 1 + WhitespaceRuns(SkipSpaces(s))
    else WhitespaceRuns(s[1..])
  }

  /** A skipped run holds nothing that `Kept` or the underscore count sees. */
  lemma {:induction false} SkipSpacesInvisible(s: string)
    ensures Kept(SkipSpaces(s)) == Kept(s)
    ensures CountChar('_', SkipSpaces(s)) == CountChar('_', s)
  {
    if s != [] && IsRegexSpace(s[0]) {
      SkipSpacesInvisible(s[1..]);
    }
  }

  /** The sanitised filename: each maximal run of `\s` characters becomes
      one underscore. The result has no `\s` character left. */
  function SanitizeFilename(s: string): (r: string)
    ensures forall i :: 0 <= i < |r| ==> !IsRegexSpace(r[i])
    decreases |s|
  {
    if s == [] then []
    else if IsRegexSpace(s[0]) then "_" + SanitizeFilename(SkipSpaces(s))
    else [s[0]] + SanitizeFilename(s[1..])
  }

  /** Sanitising keeps every character other than `\s` and underscores, in
      order, and adds exactly one underscore per run of `\s` characters. */
  lemma {:induction false} SanitizeKeepsText(s: string)
    ensures Kept(SanitizeFilename(s)) == Kept(s)
    ensures CountChar('_', SanitizeFilename(s)) == CountChar('_', s) + WhitespaceRuns(s)
    decreases |s|
  {
    if s == [] {
    } else if IsRegexSpace(s[0]) {
      var rest := SkipSpaces(s);
      SkipSpacesInvisible(s);
      SanitizeKeepsText(rest);
      var r := "_" + SanitizeFilename(rest);
      assert r[1..] == SanitizeFilename(rest);
    } else {
      SanitizeKeepsText(s[1..]);
      var r := [s[0]] + SanitizeFilename(s[1..]);
      assert r[1..] == SanitizeFilename(s[1..]);
    }
  }

  /** Sanitising neither adds nor removes a dot. */
  lemma SanitizeKeepsDots(s: string)
    ensures '.' in SanitizeFilename(s) <==> '.' in s
  {
    SanitizeKeepsText(s);
    KeptMembership(s, '.');
    KeptMembership(SanitizeFilename(s), '.');
  }

  /** A filename without `\s` characters is kept as it is. */
  lemma SanitizeWithoutSpaces(s: string)
    requires forall i :: 0 <= i < |s| ==> !IsRegexSpace(s[i])
    ensures SanitizeFilename(s) == s
  {
    SanitizeAppend(s, []);
    assert s + [] == s;
  }

  /** One space between two space-free words becomes an underscore. */
  lemma SanitizeSingleSpace(a: string, b: string)
    requires forall i :: 0 <= i < |a| ==> !IsRegexSpace(a[i])
    requires forall i :: 0 <= i < |b| ==> !IsRegexSpace(b[i])
    ensures SanitizeFilename(a + " " + b) == a + "_" + b
  {
    AppendAssoc(a, " ", b);
    SanitizeLeadingSpace(b);
    SanitizeAppend(a, " " + b);
    AppendAssoc(a, "_", b);
  }

  /** A single leading space before a space-free word becomes an underscore. */
  lemma SanitizeLeadingSpace(b: string)
    requires forall i :: 0 <= i < |b| ==> !IsRegexSpace(b[i])
    ensures SanitizeFilename([' '] + b) == "_" + b
  {
    var s := [' '] + b;
    assert s[0] == ' ' && s[1..] == b;
    assert b == [] || !IsRegexSpace(b[0]);
    assert SkipSpaces(s) == b;
    assert SanitizeFilename(s) == "_" + SanitizeFilename(b);
    SanitizeWithoutSpaces(b);
  }

  /** A whole maximal run of `\s` characters at the start becomes one
      underscore, in front of the sanitised rest. With
      `SanitizeWithoutSpaces` for the empty name and `SanitizeAppend`, this
      fixes the result on every input. */
  lemma SanitizeLeadingRun(run: string, b: string)
    requires run != []
    requires forall i :: 0 <= i < |run| ==> IsRegexSpace(run[i])
    requires b == [] || !IsRegexSpace(b[0])
    ensures SanitizeFilename(run + b) == "_" + SanitizeFilename(b)
  {
    var s := run + b;
    assert s[0] == run[0];
    SkipSpacesRun(run, b);
  }

  /** A space-free head is copied in front of the sanitised rest. */
  lemma {:induction false} SanitizeAppend(a: string, rest: string)
    requires forall i :: 0 <= i < |a| ==> !IsRegexSpace(a[i])
    ensures SanitizeFilename(a + rest) == a + SanitizeFilename(rest)
  {
    if a != [] {
      var s := a + rest;
      assert s[0] == a[0] && s[1..] == a[1..] + rest;
      assert !IsRegexSpace(s[0]);
      assert SanitizeFilename(s) == [s[0]] + SanitizeFilename(s[1..]);
      SanitizeAppend(a[1..], rest);
      assert [a[0]] + a[1..] == a;
    } else {
      assert a + rest == rest;
    }
  }

  // ---------------------------------------------------------------------
  // Thumbnail name
  // ---------------------------------------------------------------------

  /** `prefix + filename.substring(0, filename.lastIndexOf(".")) + ".jpg"`:
      the stem before the last dot between the prefix and the JPEG
      extension; a filename without a dot fails. */
  function ThumbnailFilename(prefix: string, filename: string): (r: Result<string, AvatarError>)
    ensures r.Failure? <==> '.' !in filename
    ensures r.Failure? ==> r.error == FilenameHasNoExtension
    ensures r.Success? ==>
              var stemLength := |r.value| - |prefix| - |ThumbnailExtension|;
              && 0 <= stemLength < |filename|
              && r.value == prefix + filename[..stemLength] + ThumbnailExtension
              && filename[stemLength] == '.'
              && '.' !in filename[stemLength + 1..]
  {
    match Substring(filename, 0, JavaLastIndexOf(filename, '.'))
    case None => Failure(FilenameHasNoExtension)
    case Some(stem) =>
      var r := prefix + stem + ThumbnailExtension;
      assert |r| - |prefix| - |ThumbnailExtension| == |stem|;
      Success(r)
  }

  /** The thumbnail of `<stem>.<ext>`, with no dot in `ext`, is
      `<prefix><stem>.jpg`; the stem may hold dots of its own. */
  lemma ThumbnailOfExtension(prefix: string, stem: string, ext: string)
    requires '.' !in ext
    ensures ThumbnailFilename(prefix, stem + "." + ext) == Success(prefix + stem + ThumbnailExtension)
  {
    var filename := stem + "." + ext;
    assert filename[|stem|] == '.';
    var r := ThumbnailFilename(prefix, filename);
    var k := |r.value| - |prefix| - |ThumbnailExtension|;
    assert forall j :: |stem| < j < |filename| ==> filename[j] == ext[j - |stem| - 1];
    assert forall j :: k < j < |filename| ==> filename[j] == filename[k + 1..][j - k - 1];
    assert k == |stem|;
    assert filename[..|stem|] == stem;
  }

  // ---------------------------------------------------------------------
  // MessageFormat.format(template, artistId, avatarId)
  // ---------------------------------------------------------------------

  /** `t` starts with the format element `{<digit>}`. */
  predicate StartsWithElement(t: string, digit: char) {
    |t| >= 3 && t[0] == '{' && t[1] == digit && t[2] == '}'
  }

  /** `MessageFormat.format` for templates whose only format elements are
      `{0}` and `{1}`: each is replaced by the matching argument, and the
      arguments themselves are not scanned again. */
  function Format(template: string, arg0: string, arg1: string): (r: string)
    ensures '{' !in template ==> r == template
    decreases |template|
  {
    if template == [] then []
    else if StartsWithElement(template, '0') then arg0 + Format(template[3..], arg0, arg1)
    else if StartsWithElement(template, '1') then arg1 + Format(template[3..], arg0, arg1)
    else [template[0]] + Format(template[1..], arg0, arg1)
  }

  /** Literal text before the first brace is copied through. */
  lemma {:induction false} FormatLiteralPrefix(literal: string, rest: string, arg0: string, arg1: string)
    requires '{' !in literal
    ensures Format(literal + rest, arg0, arg1) == literal + Format(rest, arg0, arg1)
  {
    if literal != [] {
      var t := literal + rest;
      assert t[0] == literal[0] && t[1..] == literal[1..] + rest;
      FormatLiteralPrefix(literal[1..], rest, arg0, arg1);
      assert [literal[0]] + literal[1..] == literal;
    } else {
      assert literal + rest == rest;
    }
  }

  /** A leading `{0}` or `{1}` is replaced by its argument. */
  lemma FormatElement(digit: char, rest: string, arg0: string, arg1: string)
    requires digit == '0' || digit == '1'
    ensures Format(['{', digit, '}'] + rest, arg0, arg1)
         == (if digit == '0' then arg0 else arg1) + Format(rest, arg0, arg1)
  {
    var t := ['{', digit, '}'] + rest;
    assert StartsWithElement(t, digit);
    assert t[3..] == rest;
  }

  /** A template `<head>{0}<middle>{1}` of brace-free literals is the head,
      the first argument, the middle and the second argument. */
  lemma FormatTwoElements(head: string, middle: string, arg0: string, arg1: string)
    requires '{' !in head && '{' !in middle
    ensures Format(head + "{0}" + middle + "{1}", arg0, arg1) == head + arg0 + middle + arg1
  {
    var e0 := ['{', '0', '}'];
    var e1 := ['{', '1', '}'];
    FormatElement('1', [], arg0, arg1);
    assert e1 + [] == e1;
    assert Format([], arg0, arg1) == [];
    assert arg1 + [] == arg1;
    FormatLiteralPrefix(middle, e1, arg0, arg1);
    FormatElement('0', middle + e1, arg0, arg1);
    FormatLiteralPrefix(head, e0 + (middle + e1), arg0, arg1);
    // Format(head + (e0 + (middle + e1))) == head + (arg0 + (middle + arg1))
    AppendAssoc(head + e0, middle, e1);
    AppendAssoc(head, e0, middle + e1);
    AppendAssoc(head + arg0, middle, arg1);
    AppendAssoc(head, arg0, middle + arg1);
    assert "{0}" == e0 && "{1}" == e1;
  }

  // ---------------------------------------------------------------------
  // The upload's naming steps
  // ---------------------------------------------------------------------

  /** The names and URIs of `uploadAvatarWithGeneratedThumbnail`: a null
      filename fails first; the sanitised filename and the thumbnail name
      are placed under the local path for the files and under the remote
      path for the URIs; `isValidUri` is `new URI(...)` not throwing. */
  function UploadNames(config: AvatarStorageConfig, artistId: Uuid, avatarId: Uuid,
                       originalFilename: Option<string>, isValidUri: string -> bool): (r: Result<UploadedAvatar, AvatarError>)
    ensures originalFilename.None? ==> r == Failure(FilenameMissing)
    ensures originalFilename.Some? ==> (r == Failure(FilenameHasNoExtension) <==> '.' !in originalFilename.value)
    ensures r.Success? ==>
              var local := Format(config.localStorageAvatarPath, artistId.text, avatarId.text);
              var remote := Format(config.remoteStorageAvatarPath, artistId.text, avatarId.text);
              var filename := SanitizeFilename(originalFilename.value);
              && originalFilename.Some?
              && r.value.avatarFile == local + "/" + filename
              && r.value.avatarUri == remote + "/" + filename
              && ThumbnailFilename(config.thumbnailPrefix, filename).Success?
              && r.value.thumbnailFile == local + "/" + ThumbnailFilename(config.thumbnailPrefix, filename).value
              && r.value.thumbnailUri == remote + "/" + ThumbnailFilename(config.thumbnailPrefix, filename).value
              && isValidUri(r.value.avatarUri) && isValidUri(r.value.thumbnailUri)
    ensures r == Failure(FileContentIsCorrupted) ==> originalFilename.Some? && '.' in originalFilename.value
    ensures originalFilename.Some? && '.' in originalFilename.value ==>
              var filename := SanitizeFilename(originalFilename.value);
              var remote := Format(config.remoteStorageAvatarPath, artistId.text, avatarId.text);
              && ThumbnailFilename(config.thumbnailPrefix, filename).Success?
              && var avatarUri := remote + "/" + filename;
                 var thumbnailUri := remote + "/" + ThumbnailFilename(config.thumbnailPrefix, filename).value;
                 && (r == Failure(FileContentIsCorrupted) <==> !isValidUri(avatarUri) || !isValidUri(thumbnailUri))
                 && (r.Success? <==> isValidUri(avatarUri) && isValidUri(thumbnailUri))
  {
    match originalFilename
    case None => Failure(FilenameMissing)
    case Some(original) =>
      var filename := SanitizeFilename(original);
      SanitizeKeepsDots(original);
      var localStoragePath := Format(config.localStorageAvatarPath, artistId.text, avatarId.text);
      var remoteStoragePath := Format(config.remoteStorageAvatarPath, artistId.text, avatarId.text);
      match ThumbnailFilename(config.thumbnailPrefix, filename)
      case Failure(e) => Failure(e)
      case Success(thumbnailFileName) =>
        var avatarUri := remoteStoragePath + "/" + filename;
        var thumbnailUri := remoteStoragePath + "/" + thumbnailFileName;
        if !isValidUri(avatarUri) || !isValidUri(thumbnailUri) then Failure(FileContentIsCorrupted)
        else Success(UploadedAvatar(localStoragePath + "/" + filename,
                                    localStoragePath + "/" + thumbnailFileName,
                                    avatarUri, thumbnailUri))
  }

  /** Each returned URI names the file written locally: the part after the
      storage directory is the same, and the thumbnail name carries the
      prefix and the ".jpg" extension. */
  lemma UrisNameTheLocalFiles(config: AvatarStorageConfig, artistId: Uuid, avatarId: Uuid,
                              originalFilename: Option<string>, isValidUri: string -> bool)
    requires UploadNames(config, artistId, avatarId, originalFilename, isValidUri).Success?
    ensures var u := UploadNames(config, artistId, avatarId, originalFilename, isValidUri).value;
            var local := |Format(config.localStorageAvatarPath, artistId.text, avatarId.text)| + 1;
            var remote := |Format(config.remoteStorageAvatarPath, artistId.text, avatarId.text)| + 1;
            && u.avatarFile[local..] == u.avatarUri[remote..]
            && u.thumbnailFile[local..] == u.thumbnailUri[remote..]
            && u.thumbnailUri[remote..][..|config.thumbnailPrefix|] == config.thumbnailPrefix
            && u.thumbnailUri[|u.thumbnailUri| - 4..] == ".jpg"
  {
    var u := UploadNames(config, artistId, avatarId, originalFilename, isValidUri).value;
    var filename := SanitizeFilename(originalFilename.value);
    var thumbnail := ThumbnailFilename(config.thumbnailPrefix, filename).value;
    ThumbnailShape(config.thumbnailPrefix, filename);
    SameNamesInBothDirectories(u, Format(config.localStorageAvatarPath, artistId.text, avatarId.text),
                               Format(config.remoteStorageAvatarPath, artistId.text, avatarId.text),
                               filename, thumbnail, config.thumbnailPrefix);
  }

  /** A thumbnail name starts with the prefix and ends with ".jpg". */
  lemma ThumbnailShape(prefix: string, filename: string)
    requires ThumbnailFilename(prefix, filename).Success?
    ensures var t := ThumbnailFilename(prefix, filename).value;
            && |prefix| + 4 <= |t|
            && t[..|prefix|] == prefix
            && t[|t| - 4..] == ".jpg"
  {
    var t := ThumbnailFilename(prefix, filename).value;
    var stem := filename[..|t| - |prefix| - |ThumbnailExtension|];
    assert t == prefix + stem + ThumbnailExtension;
    assert t[|t| - 4..] == ThumbnailExtension;
  }

  lemma SameNamesInBothDirectories(u: UploadedAvatar, local: string, remote: string,
                                   filename: string, thumbnail: string, prefix: string)
    requires u.avatarFile == local + "/" + filename && u.avatarUri == remote + "/" + filename
    requires u.thumbnailFile == local + "/" + thumbnail && u.thumbnailUri == remote + "/" + thumbnail
    requires |prefix| + 4 <= |thumbnail|
    requires thumbnail[..|prefix|] == prefix && thumbnail[|thumbnail| - 4..] == ".jpg"
    ensures u.avatarFile[|local| + 1..] == u.avatarUri[|remote| + 1..]
    ensures u.thumbnailFile[|local| + 1..] == u.thumbnailUri[|remote| + 1..]
    ensures u.thumbnailUri[|remote| + 1..][..|prefix|] == prefix
    ensures u.thumbnailUri[|u.thumbnailUri| - 4..] == ".jpg"
  {
    InDirectory(local, filename);
    InDirectory(remote, filename);
    InDirectory(local, thumbnail);
    InDirectory(remote, thumbnail);
    assert u.thumbnailUri[|u.thumbnailUri| - 4..] == thumbnail[|thumbnail| - 4..];
  }

  /** The part of `<dir>/<name>` after the directory is the name. */
  lemma InDirectory(dir: string, name: string)
    ensures (dir + "/" + name)[|dir| + 1..] == name
    ensures |dir + "/" + name| == |dir| + 1 + |name|
  {
  }
}

/** The default settings worked through on concrete names. */
module AvatarNamingDefaults {
  import opened Wrappers
  import opened JavaStrings
  import opened AvatarNaming

  /** The default templates put the artist id and then the avatar id into
      the path. */
  lemma DefaultStoragePaths(artistId: string, avatarId: string)
    ensures Format(DefaultLocalStorageAvatarPath, artistId, avatarId)
         == "/data/artist/" + artistId + "/avatar/" + avatarId
    ensures Format(DefaultRemoteStorageAvatarPath, artistId, avatarId)
         == "/artist/" + artistId + "/avatar/" + avatarId
  {
    FormatTwoElements("/data/artist/", "/avatar/", artistId, avatarId);
    FormatTwoElements("/artist/", "/avatar/", artistId, avatarId);
  }

  /** `<name>.<ext>` has no `\s` character when neither part has one. */
  lemma DottedNameWithoutSpaces(name: string, ext: string)
    requires forall i :: 0 <= i < |name| ==> !IsRegexSpace(name[i])
    requires forall i :: 0 <= i < |ext| ==> !IsRegexSpace(ext[i])
    ensures forall i :: 0 <= i < |name + "." + ext| ==> !IsRegexSpace((name + "." + ext)[i])
  {
    var t := name + "." + ext;
    assert forall i :: |name| < i < |t| ==> t[i] == ext[i - |name| - 1];
  }

  lemma Regroup(first: string, sep: string, second: string, ext: string)
    ensures first + sep + second + "." + ext == first + sep + (second + "." + ext)
  {
    AppendAssoc(first + sep, second, ".");
    AppendAssoc(first + sep, second + ".", ext);
  }

  /** "<first> <second>.<ext>" is sanitised to "<first>_<second>.<ext>". */
  lemma SanitizeTwoWordName(first: string, second: string, ext: string)
    requires forall i :: 0 <= i < |first| ==> !IsRegexSpace(first[i])
    requires forall i :: 0 <= i < |second| ==> !IsRegexSpace(second[i])
    requires forall i :: 0 <= i < |ext| ==> !IsRegexSpace(ext[i])
    ensures SanitizeFilename(first + " " + second + "." + ext) == (first + "_" + second) + "." + ext
  {
    var tail := second + "." + ext;
    DottedNameWithoutSpaces(second, ext);
    SanitizeSingleSpace(first, tail);
    Regroup(first, " ", second, ext);
    Regroup(first, "_", second, ext);
  }

  /** Under any settings, a name that sanitises to `<stem>.<ext>` is stored
      under that name with the thumbnail `<prefix><stem>.jpg`, when every
      URI is accepted. */
  lemma UploadOfSanitizedName(config: AvatarStorageConfig, artistId: Uuid, avatarId: Uuid,
                              original: string, stem: string, ext: string, isValidUri: string -> bool)
    requires SanitizeFilename(original) == stem + "." + ext
    requires '.' !in ext
    requires forall u :: isValidUri(u)
    ensures var local := Format(config.localStorageAvatarPath, artistId.text, avatarId.text);
            var remote := Format(config.remoteStorageAvatarPath, artistId.text, avatarId.text);
            var thumbnail := config.thumbnailPrefix + stem + ThumbnailExtension;
            UploadNames(config, artistId, avatarId, Some(original), isValidUri)
            == Success(UploadedAvatar(local + "/" + (stem + "." + ext), local + "/" + thumbnail,
                                      remote + "/" + (stem + "." + ext), remote + "/" + thumbnail))
  {
    var filename := stem + "." + ext;
    ThumbnailOfExtension(config.thumbnailPrefix, stem, ext);
    var thumbnail := config.thumbnailPrefix + stem + ThumbnailExtension;
    assert ThumbnailFilename(config.thumbnailPrefix, filename) == Success(thumbnail);
    var r := UploadNames(config, artistId, avatarId, Some(original), isValidUri);
    assert r.Success?;
  }

  /** With the default settings, an upload named "<first> <second>.<ext>"
      (as in "my avatar.png") is stored as "<first>_<second>.<ext>" with the
      thumbnail "thumbnail_<first>_<second>.jpg" (the default prefix and the
      thumbnail extension around the stem), in the artist's and
      avatar's directory. */
  lemma DefaultUploadExample(artistId: Uuid, avatarId: Uuid, first: string, second: string, ext: string,
                             isValidUri: string -> bool)
    requires forall i :: 0 <= i < |first| ==> !IsRegexSpace(first[i])
    requires forall i :: 0 <= i < |second| ==> !IsRegexSpace(second[i])
    requires forall i :: 0 <= i < |ext| ==> !IsRegexSpace(ext[i]) && ext[i] != '.'
    requires forall u :: isValidUri(u)
    ensures var remote := "/artist/" + artistId.text + "/avatar/" + avatarId.text;
            var local := "/data/artist/" + artistId.text + "/avatar/" + avatarId.text;
            var stem := first + "_" + second;
            var stored := stem + "." + ext;
            var thumbnail := DefaultThumbnailPrefix + stem + ThumbnailExtension;
            UploadNames(DefaultConfig, artistId, avatarId, Some(first + " " + second + "." + ext), isValidUri)
            == Success(UploadedAvatar(local + "/" + stored, local + "/" + thumbnail,
                                      remote + "/" + stored, remote + "/" + thumbnail))
  {
    DefaultStoragePaths(artistId.text, avatarId.text);
    SanitizeTwoWordName(first, second, ext);
    assert '.' !in ext;
    UploadOfSanitizedName(DefaultConfig, artistId, avatarId, first + " " + second + "." + ext,
                          first + "_" + second, ext, isValidUri);
  }
}
