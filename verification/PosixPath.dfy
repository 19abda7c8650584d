/** The part of `pathlib.PurePosixPath` that claim arguments rely on. */
module PosixPath {
  /** `root` is "", "/" or "//"; no part is empty, ".", or contains a slash. */
  datatype Path = Path(root: string, parts: seq<string>)

  predicate ValidPart(part: string) {
    part != "" && part != "." && '/' !in part
  }

  predicate Valid(p: Path) {
    (p.root == "" || p.root == "/" || p.root == "//") && forall i :: 0 <= i < |p.parts| ==> ValidPart(p.parts[i])
  }

  /** The pieces between slashes, without empty ones and ".". */
  function Pieces(text: string, piece: string): seq<string> {
    if text == "" then Kept(piece)
    else if text[0] == '/' then Kept(piece) + Pieces(text[1..], "")
    else Pieces(text[1..], piece + [text[0]])
  }

  function Kept(piece: string): seq<string> {
    if piece == "" || piece == "." then [] else [piece]
  }

  /** Leading slashes: exactly two are kept as such, any other number means one. */
  function RootOf(text: string): string {
    if text == "" || text[0] != '/' then ""
    else if |text| >= 2 && text[1] == '/' && !(|text| >= 3 && text[2] == '/') then "//"
    else "/"
  }

  /** `Path(text)`. */
  function Parse(text: string): Path {
    Path(RootOf(text), Pieces(text[|RootOf(text)|..], ""))
  }

  function Join(parts: seq<string>): string {
    if parts == [] then ""
    else if |parts| == 1 then parts[0]
    else parts[0] + "/" + Join(parts[1..])
  }

  /** `str(path)`. */
  function Str(p: Path): string {
    if p.root == "" && p.parts == [] then "." else p.root + Join(p.parts)
  }

  predicate IsAbsolute(p: Path) {
    p.root != ""
  }

  function Parent(p: Path): Path {
    if p.parts == [] then p else p.(parts := p.parts[..|p.parts| - 1])
  }

  function FileName(p: Path): string {
    if p.parts == [] then "" else p.parts[|p.parts| - 1]
  }

  lemma {:induction false} PiecesOfPart(part: string, rest: string, piece: string)
    requires '/' !in part
    ensures Pieces(part + rest, piece) == Pieces(rest, piece + part)
    decreases |part|
  {
    if part == "" {
      assert part + rest == rest && piece + part == piece;
    } else {
      assert part[0] in part;
      assert (part + rest)[1..] == part[1..] + rest;
      PiecesOfPart(part[1..], rest, piece + [part[0]]);
      assert piece + [part[0]] + part[1..] == piece + part;
    }
  }

  lemma {:induction false} PiecesOfJoin(parts: seq<string>)
    requires forall i :: 0 <= i < |parts| ==> ValidPart(parts[i])
    ensures Pieces(Join(parts), "") == parts
    ensures parts != [] ==> Join(parts) != "" && Join(parts)[0] != '/' && Join(parts) != "."
  {
    if parts != [] {
      assert ValidPart(parts[0]);
      assert parts[0][0] in parts[0];
      assert parts == [parts[0]] + parts[1..];
      if |parts| == 1 {
        PiecesOfPart(parts[0], "", "");
        assert parts[0] + "" == parts[0] && "" + parts[0] == parts[0];
      } else {
        forall i | 0 <= i < |parts[1..]| ensures ValidPart(parts[1..][i]) {
          assert parts[1..][i] == parts[i + 1];
        }
        PiecesOfJoin(parts[1..]);
        var rest := "/" + Join(parts[1..]);
        assert Join(parts) == parts[0] + rest;
        PiecesOfPart(parts[0], rest, "");
        assert "" + parts[0] == parts[0];
        assert rest[1..] == Join(parts[1..]);
      }
    }
  }

  /** Printing a path and parsing it gives the path back, so printing is injective. */
  lemma {:induction false} ParseOfStr(p: Path)
    requires Valid(p)
    ensures Parse(Str(p)) == p
    ensures Str(p) != ""
  {
    PiecesOfJoin(p.parts);
    if p.root == "" && p.parts == [] {
      assert Pieces(".", "") == Pieces("", ".");
      assert RootOf(".") == "";
      assert "."[0..] == ".";
    } else {
      var text := Str(p);
      assert RootOf(text) == p.root;
      assert text[|p.root|..] == Join(p.parts);
    }
  }

  /** Which root a text has: exactly two leading slashes are kept, more are one. */
  lemma {:induction false} RootMeans(text: string)
    ensures RootOf(text) == "//" <==> "//" <= text && !("///" <= text)
    ensures RootOf(text) == "" <==> !("/" <= text)
    ensures RootOf(text) in {"", "/", "//"}
    ensures IsAbsolute(Parse(text)) <==> "/" <= text
  {
  }

  /** The pieces are what stands between the slashes, without nothing and ".". */
  lemma {:induction false} PiecesMean(part: string, rest: string)
    requires '/' !in part
    ensures Pieces(part, "") == if part == "" || part == "." then [] else [part]
    ensures Pieces(part + "/" + rest, "") == Pieces(part, "") + Pieces(rest, "")
  {
    PiecesOfPart(part, "", "");
    assert part + "" == part && "" + part == part;
    PiecesOfPart(part, "/" + rest, "");
    assert part + "/" + rest == part + ("/" + rest);
    assert ("/" + rest)[1..] == rest;
  }

  /** A child of a directory has it for parent, and is named by its last part. */
  lemma {:induction false} ChildOf(directory: Path, name: string)
    ensures var child := directory.(parts := directory.parts + [name]);
      Parent(child) == directory && FileName(child) == name
  {
    assert (directory.parts + [name])[..|directory.parts|] == directory.parts;
  }

  lemma {:induction false} PiecesAreValid(text: string, piece: string)
    requires '/' !in piece
    ensures forall i :: 0 <= i < |Pieces(text, piece)| ==> ValidPart(Pieces(text, piece)[i])
    decreases |text|
  {
    if text != "" {
      if text[0] == '/' {
        PiecesAreValid(text[1..], "");
      } else {
        PiecesAreValid(text[1..], piece + [text[0]]);
      }
    }
  }

  /** Whatever the text, parsing gives a valid path. */
  lemma ParseIsValid(text: string)
    ensures Valid(Parse(text))
  {
    PiecesAreValid(text[|RootOf(text)|..], "");
  }
}
