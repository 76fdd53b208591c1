/** Archive listings: the members, their names and what their first bytes say. */
module Members {
  import opened Text

  newtype byte = b: int | 0 <= b < 256

  type Bytes = seq<byte>

  datatype Member = Member(
    name: string,
    size: int,
    packed: int,
    directory: bool,
    symlink: bool,
    header: Bytes,
    block: Option<int>)

  datatype Limits = Limits(members: int, total: int, member: int, ratio: real, depth: int)

  datatype Fault =
    | Empty | TooManyMembers | InvalidName | AbsoluteName | Traversal | Symlink | TooDeep
    | NestedArchive | MemberTooLarge | TotalTooLarge | FakeImage | CompressionRatio | NoImages

  datatype Verdict<+T> = Accepted(value: T) | Refused(fault: Fault)

  // ------------------------------------------------------------------------------ names

  /** `PurePosixPath(s).parts` of a relative path. */
  function PathParts(s: string): seq<string> {
    Kept(Split(s, '/'))
  }

  function Kept(pieces: seq<string>): seq<string> {
    if pieces == [] then []
    else (if pieces[0] in {"", "."} then [] else [pieces[0]]) + Kept(pieces[1..])
  }

  predicate HasDrive(s: string) {
    |s| >= 2 && 'a' <= LowerChar(s[0]) <= 'z' && s[1] == ':'
  }

  /** `normalize_member_name`. */
  function NormalName(raw: string): Verdict<string> {
    var cleaned := Strip(ReplaceChar(raw, '\\', '/'));
    if cleaned == "" then Refused(InvalidName)
    else if cleaned[0] == '/' || HasDrive(cleaned) then Refused(AbsoluteName)
    else
      var parts := PathParts(cleaned);
      if ".." in parts then Refused(Traversal)
      else Accepted(if parts == [] then "." else Join(parts, "/"))
  }

  function FileSuffix(part: string): (suffix: string)
    ensures suffix == "" || (|suffix| >= 2 && suffix[0] == '.')
  {
    match LastDot(part)
    case Some(dot) => if 0 < dot < |part| - 1 then part[dot..] else ""
    case None => ""
  }

  /** `PurePosixPath(name.lower()).suffix`. */
  function Suffix(name: string): (suffix: string)
    ensures suffix == "" || (|suffix| >= 2 && suffix[0] == '.')
  {
    var parts := PathParts(Lower(name));
    if parts == [] then "" else FileSuffix(parts[|parts| - 1])
  }

  const IMAGES := {".jpg", ".jpeg", ".png", ".webp", ".gif", ".bmp", ".avif", ".jxl"}
  const NESTED := {".zip", ".cbz", ".rar", ".cbr", ".7z", ".cb7", ".tar", ".gz", ".xz", ".bz2"}

  // ------------------------------------------------------------------------------ bytes

  const JPEG: Bytes := [0xff, 0xd8, 0xff]
  const PNG: Bytes := [0x89, 0x50, 0x4e, 0x47, 0x0d, 0x0a, 0x1a, 0x0a]
  const GIF87: Bytes := [0x47, 0x49, 0x46, 0x38, 0x37, 0x61]
  const GIF89: Bytes := [0x47, 0x49, 0x46, 0x38, 0x39, 0x61]
  const BMP: Bytes := [0x42, 0x4d]
  const RIFF: Bytes := [0x52, 0x49, 0x46, 0x46]
  const WEBP: Bytes := [0x57, 0x45, 0x42, 0x50]

  /** `detected_image_extension`. */
  function Detected(header: Bytes): (extension: Option<string>)
    ensures extension.Some? ==> extension.value in IMAGES
  {
    if JPEG <= header then Some(".jpg")
    else if PNG <= header then Some(".png")
    else if GIF87 <= header || GIF89 <= header then Some(".gif")
    else if BMP <= header then Some(".bmp")
    else if RIFF <= header && |header| >= 12 && header[8..12] == WEBP then Some(".webp")
    else None
  }

  /** The names a detected format may go by. */
  function Aliases(extension: string): set<string> {
    if extension == ".jpg" then {".jpg", ".jpeg"} else {extension}
  }

  /** `header_matches_extension`; a `.gif` is only compared with the first of the two signatures. */
  predicate HeaderMatches(suffix: string, header: Bytes) {
    if header == [] then true
    else if suffix in {".jpg", ".jpeg"} then JPEG <= header
    else if suffix == ".png" then PNG <= header
    else if suffix == ".gif" then GIF87 <= header
    else if suffix == ".bmp" then BMP <= header
    else if suffix == ".webp" then RIFF <= header || |header| < 4
    else true
  }

  /** `effective_page_extension`. */
  function EffectiveExtension(name: string, header: Bytes): string {
    match Detected(header)
    case None => Suffix(name)
    case Some(detected) => if Suffix(name) in Aliases(detected) then Suffix(name) else detected
  }

  // --------------------------------------------------------------------- read in characters

  /** A name that begins with a letter and a colon has a drive, and no other does. */
  lemma DrivesRead(s: string)
    ensures HasDrive(s) <==> exists letter, rest ::
              ('a' <= letter <= 'z' || 'A' <= letter <= 'Z') && s == [letter, ':'] + rest
  {
    if HasDrive(s) {
      assert s == [s[0], ':'] + s[2..];
    }
  }

  /** A file's suffix begins at its last dot, unless that is its first or last character. */
  lemma SuffixesRead(stem: string, extension: string)
    requires '.' !in extension
    ensures FileSuffix(stem + "." + extension) == if stem == "" || extension == "" then "" else "." + extension
    ensures FileSuffix(extension) == ""
  {
    var part, n := stem + "." + extension, |stem|;
    assert part[n] == '.' && part[n..] == "." + extension;
    assert forall i | n < i < |part| :: part[i] == extension[i - n - 1];
    assert LastDot(part) == Some(n);
  }

  /** The parts of a path are the pieces between its slashes that are neither empty nor a dot. */
  lemma PartsRead(s: string, part: string)
    ensures part in PathParts(s) <==> part != "" && part != "." && exists i: nat, j: nat ::
              Piece(s, {'/'}, i, j) && part == s[i..j]
  {
    SplitExactly(s, '/', part);
    KeptRead(Split(s, '/'), part);
  }

  lemma {:induction false} KeptRead(pieces: seq<string>, part: string)
    ensures part in Kept(pieces) <==> part in pieces && part != "" && part != "."
  {
    if pieces != [] {
      KeptRead(pieces[1..], part);
      assert pieces == [pieces[0]] + pieces[1..];
    }
  }
}
