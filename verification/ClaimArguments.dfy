/** Host-socket claims as text: how src/shuttle_gate/host.py derives and prints them,
  and how src/shuttle_gate/claim.py parses them back. */
module ClaimArguments {
  import opened Wrappers
  import opened PosixPath
  import opened DecimalText
  import opened TextOrder

  // --------------------------------------------------------------- the parser

  datatype ClaimError =
    | MissingPath       // "--claim requires a path"
    | NoBoundary        // "expected one or more claims followed by -- COMMAND"
    | Unsorted          // "claim paths must be unique and sorted"
    | BadStructure      // "claim paths have an invalid structure"
    | RelativeCommand   // "runtime command must use an absolute executable path"

  predicate IsLowerHex(c: char) {
    ('0' <= c && c <= '9') || ('a' <= c && c <= 'f')
  }

  /** `^[0-9a-f]{64}\\.lock$` */
  predicate IsClaimName(name: string) {
    && |name| == 69
    && name[64..] == ".lock"
    && forall i :: 0 <= i < 64 ==> IsLowerHex(name[i])
  }

  function Texts(claims: seq<Path>): seq<string> {
    seq(|claims|, i requires 0 <= i < |claims| => Str(claims[i]))
  }

  function ParseAll(raws: seq<string>): seq<Path> {
    seq(|raws|, i requires 0 <= i < |raws| => Parse(raws[i]))
  }

  predicate Structured(claims: seq<Path>)
    requires claims != []
  {
    forall i :: 0 <= i < |claims| ==>
      IsAbsolute(claims[i]) && Parent(claims[i]) == Parent(claims[0]) && IsClaimName(FileName(claims[i]))
  }

  /** The claims and command a claim wrapper accepts. */
  ghost predicate Acceptable(claims: seq<Path>, command: seq<string>) {
    && claims != []
    && Ascending(Texts(claims))
    && Structured(claims)
    && command != []
    && IsAbsolute(Parse(command[0]))
  }

  function Flags(raws: seq<string>): seq<string> {
    if raws == [] then [] else ["--claim", raws[0]] + Flags(raws[1..])
  }

  /** The arguments after the module name: claims, the boundary, the command. */
  function Tail(raws: seq<string>, command: seq<string>): seq<string> {
    Flags(raws) + ["--"] + command
  }

  /** The checks after the claim loop (lines 34 to 49). */
  function Judge(claims: seq<Path>, rest: seq<string>): Result<(seq<Path>, seq<string>), ClaimError> {
    if claims == [] || |rest| < 2 || rest[0] != "--" then Err(NoBoundary)
    else if SortedSet(Texts(claims)) != Texts(claims) then Err(Unsorted)
    else if !Structured(claims) then Err(BadStructure)
    else if !IsAbsolute(Parse(rest[1])) then Err(RelativeCommand)
    else Ok((claims, rest[1..]))
  }

  /** What the parser returns, by recursion over the arguments. */
  function Parsed(claims: seq<Path>, arguments: seq<string>): Result<(seq<Path>, seq<string>), ClaimError>
    decreases |arguments|
  {
    if arguments != [] && arguments[0] == "--claim" then
      if |arguments| < 2 then Err(MissingPath) else Parsed(claims + [Parse(arguments[1])], arguments[2..])
    else Judge(claims, arguments)
  }

  /** The generator over the claims (lines 39 to 44). */
  method HasStructure(claims: seq<Path>) returns (structured: bool)
    requires claims != []
    ensures structured <==> Structured(claims)
  {
    hide IsClaimName, IsAbsolute, Parent, FileName;
    var parent := Parent(claims[0]);
    for i := 0 to |claims|
      invariant forall k :: 0 <= k < i ==>
        IsAbsolute(claims[k]) && Parent(claims[k]) == parent && IsClaimName(FileName(claims[k]))
    {
      if !IsAbsolute(claims[i]) || Parent(claims[i]) != parent || !IsClaimName(FileName(claims[i])) {
        return false;
      }
    }
    return true;
  }

  /** `parse_arguments` (line 24). */
  method ParseArguments(arguments: seq<string>) returns (r: Result<(seq<Path>, seq<string>), ClaimError>)
    ensures r == Parsed([], arguments)
    ensures r.Ok? <==> exists raws, command ::
      arguments == Tail(raws, command) && Acceptable(ParseAll(raws), command)
    ensures r.Ok? ==> forall i :: 0 <= i < |r.value.0| ==> Valid(r.value.0[i])
    ensures r.Ok? ==> exists raws ::
      arguments == Tail(raws, r.value.1) && r.value.0 == ParseAll(raws) && Acceptable(r.value.0, r.value.1)
  {
    ParsedIffAcceptable(arguments);
    hide Acceptable, Structured, Parse, SortedSet, Texts, Tail, ParseAll, Valid;
    var values := arguments;
    var claims: seq<Path> := [];
    while |values| > 0 && values[0] == "--claim"
      invariant Parsed([], arguments) == Parsed(claims, values)
      invariant forall i :: 0 <= i < |claims| ==> Valid(claims[i])
      decreases |values|
    {
      if |values| < 2 {
        return Err(MissingPath);
      }
      ParseIsValid(values[1]);
      claims := claims + [Parse(values[1])];
      values := values[2..];
    }
    if claims == [] || values == [] || values[0] != "--" || |values| < 2 {
      return Err(NoBoundary);
    }
    if Texts(claims) != SortedSet(Texts(claims)) {
      return Err(Unsorted);
    }
    var structured := HasStructure(claims);
    if !structured {
      return Err(BadStructure);
    }
    var command := values[1..];
    if !IsAbsolute(Parse(command[0])) {
      return Err(RelativeCommand);
    }
    return Ok((claims, command));
  }

  lemma {:induction false} ParsedOfFlags(claims: seq<Path>, raws: seq<string>, rest: seq<string>)
    requires rest == [] || rest[0] != "--claim"
    ensures Parsed(claims, Flags(raws) + rest) == Judge(claims + ParseAll(raws), rest)
    decreases |raws|
  {
    if raws == [] {
      assert Flags(raws) + rest == rest && claims + ParseAll(raws) == claims;
    } else {
      var arguments := Flags(raws) + rest;
      assert arguments[0] == "--claim" && arguments[1] == raws[0];
      assert arguments[2..] == Flags(raws[1..]) + rest;
      ParsedOfFlags(claims + [Parse(raws[0])], raws[1..], rest);
      assert claims + [Parse(raws[0])] + ParseAll(raws[1..]) == claims + ParseAll(raws);
    }
  }

  lemma JudgeIffAcceptable(claims: seq<Path>, command: seq<string>)
    ensures Judge(claims, ["--"] + command)
            == (if Acceptable(claims, command) then Ok((claims, command)) else Judge(claims, ["--"] + command))
    ensures Judge(claims, ["--"] + command).Ok? <==> Acceptable(claims, command)
  {
    SortedSetFixesAscending(Texts(claims));
    assert (["--"] + command)[1..] == command;
  }

  /** 64 digits of a digest, then the suffix. */
  lemma {:induction false} ClaimNameMeans(name: string)
    ensures IsClaimName(name) <==> exists digest ::
      |digest| == 64 && name == digest + ".lock" && forall c :: c in digest ==> c in "0123456789abcdef"
  {
    HexDigitsMean();
    if IsClaimName(name) {
      assert name == name[..64] + ".lock";
    }
    if digest: string :|
      |digest| == 64 && name == digest + ".lock" && forall c :: c in digest ==> c in "0123456789abcdef" {
      assert name[64..] == ".lock";
      forall i | 0 <= i < 64 ensures IsLowerHex(name[i]) {
        assert name[i] == digest[i] && digest[i] in digest;
      }
    }
  }

  lemma HexDigitsMean()
    ensures forall c :: IsLowerHex(c) <==> c in "0123456789abcdef"
  {
    var digits := "0123456789abcdef";
    forall c ensures IsLowerHex(c) <==> c in digits {
      if IsLowerHex(c) {
        var k := if c <= '9' then c as int - '0' as int else c as int - 'a' as int + 10;
        assert 0 <= k < 16 && digits[k] == c;
      }
    }
  }

  /** A file of this directory that can be a claim. */
  ghost predicate ClaimIn(directory: Path, claim: Path) {
    && claim.root == directory.root && |claim.parts| == |directory.parts| + 1
    && claim.parts[..|directory.parts|] == directory.parts
    && IsClaimName(claim.parts[|directory.parts|])
  }

  ghost predicate AllIn(directory: Path, claims: seq<Path>) {
    forall i :: 0 <= i < |claims| ==> ClaimIn(directory, claims[i])
  }

  /** The accepted claims are the files, in strict order, of one absolute directory, and
    the command starts with a slash. */
  lemma {:induction false} AcceptableMeans(claims: seq<Path>, command: seq<string>)
    ensures Acceptable(claims, command) <==>
      && claims != [] && command != [] && "/" <= command[0]
      && (forall i, k :: 0 <= i < k < |claims| ==> Less(Str(claims[i]), Str(claims[k])))
      && (exists directory: Path :: directory.root != "" && AllIn(directory, claims))
  {
    hide IsClaimName, Less, Str;
    assert forall i :: 0 <= i < |claims| ==> Texts(claims)[i] == Str(claims[i]);
    if command != [] {
      RootMeans(command[0]);
    }
    hide Parse, Texts;
    if claims != [] && Structured(claims) {
      hide Ascending;
      ClaimIsNamed();
      assert AllIn(Parent(claims[0]), claims);
    }
    if directory: Path :| claims != [] && directory.root != "" && AllIn(directory, claims) {
      assert forall i :: 0 <= i < |claims| ==> ClaimIn(directory, claims[i]) && Parent(claims[i]) == directory;
      assert Structured(claims);
    }
  }

  lemma ClaimIsNamed()
    ensures !IsClaimName("")
  {
  }

  /** Every claim has its own flag; the boundary and the command follow. */
  lemma {:induction false} FlagsMean(raws: seq<string>, i: nat)
    requires i < |raws|
    ensures |Flags(raws)| == 2 * |raws|
    ensures Flags(raws)[2 * i] == "--claim" && Flags(raws)[2 * i + 1] == raws[i]
    decreases |raws|
  {
    if |raws| > 1 {
      FlagsMean(raws[1..], if i > 0 then i - 1 else 0);
    }
  }

  /** The claim flags at the front of any arguments. */
  lemma {:induction false} SplitFlags(arguments: seq<string>) returns (raws: seq<string>, rest: seq<string>)
    ensures arguments == Flags(raws) + rest
    ensures rest == [] || rest[0] != "--claim" || |rest| == 1
    decreases |arguments|
  {
    if |arguments| >= 2 && arguments[0] == "--claim" {
      var more;
      more, rest := SplitFlags(arguments[2..]);
      raws := [arguments[1]] + more;
      assert raws[1..] == more;
      assert arguments == [arguments[0], arguments[1]] + arguments[2..];
    } else {
      raws, rest := [], arguments;
    }
  }

  lemma {:induction false} DanglingFlag(claims: seq<Path>, raws: seq<string>)
    ensures Parsed(claims, Flags(raws) + ["--claim"]) == Err(MissingPath)
    decreases |raws|
  {
    if raws == [] {
      assert Flags(raws) + ["--claim"] == ["--claim"];
    } else {
      assert (Flags(raws) + ["--claim"])[2..] == Flags(raws[1..]) + ["--claim"];
      DanglingFlag(claims + [Parse(raws[0])], raws[1..]);
    }
  }

  /** The parser accepts exactly the printed forms of acceptable claims and commands,
    and returns what was printed. */
  lemma ParsedIffAcceptable(arguments: seq<string>)
    ensures Parsed([], arguments).Ok? <==> exists raws, command ::
      arguments == Tail(raws, command) && Acceptable(ParseAll(raws), command)
    ensures Parsed([], arguments).Ok? ==> exists raws ::
      var (claims, command) := Parsed([], arguments).value;
      arguments == Tail(raws, command) && claims == ParseAll(raws) && Acceptable(claims, command)
  {
    var raws, rest := SplitFlags(arguments);
    if rest != [] && rest[0] == "--claim" {
      assert rest == ["--claim"];
      DanglingFlag([], raws);
    } else {
      ParsedOfFlags([], raws, rest);
      assert [] + ParseAll(raws) == ParseAll(raws);
      if Parsed([], arguments).Ok? {
        assert rest == ["--"] + rest[1..];
        JudgeIffAcceptable(ParseAll(raws), rest[1..]);
        assert arguments == Tail(raws, rest[1..]);
      }
    }
    forall printed, command | arguments == Tail(printed, command) && Acceptable(ParseAll(printed), command)
      ensures Parsed([], arguments).Ok?
    {
      assert arguments == Flags(printed) + (["--"] + command);
      ParsedOfFlags([], printed, ["--"] + command);
      assert [] + ParseAll(printed) == ParseAll(printed);
      JudgeIffAcceptable(ParseAll(printed), command);
    }
  }

  // -------------------------------------------------------------- the printer

  /** `claim_command` (host.py line 611). */
  method ClaimCommand(executable: string, claims: seq<Path>, inner: seq<string>) returns (r: Option<seq<string>>)
    ensures r.None? <==> claims == [] || inner == []
    ensures r.Some? ==> r.value == [executable, "-P", "-m", "shuttle_gate.claim"] + Tail(Texts(claims), inner)
  {
    if claims == [] || inner == [] {
      return None;
    }
    var arguments := [executable, "-P", "-m", "shuttle_gate.claim"];
    ghost var prefix := arguments;
    for i := 0 to |claims|
      invariant arguments == prefix + Flags(Texts(claims)[..i])
    {
      arguments := arguments + ["--claim", Str(claims[i])];
      FlagsExtend(Texts(claims)[..i], Str(claims[i]));
      assert Texts(claims)[..i] + [Str(claims[i])] == Texts(claims)[..i + 1];
    }
    assert Texts(claims)[..|claims|] == Texts(claims);
    return Some(arguments + ["--"] + inner);
  }

  lemma {:induction false} FlagsExtend(raws: seq<string>, raw: string)
    ensures Flags(raws + [raw]) == Flags(raws) + ["--claim", raw]
    decreases |raws|
  {
    if raws == [] {
      assert raws + [raw] == [raw];
    } else {
      assert (raws + [raw])[1..] == raws[1..] + [raw];
      FlagsExtend(raws[1..], raw);
    }
  }

  lemma ParseAllOfTexts(claims: seq<Path>)
    requires forall i :: 0 <= i < |claims| ==> Valid(claims[i])
    ensures ParseAll(Texts(claims)) == claims
  {
    forall i | 0 <= i < |claims| ensures Parse(Texts(claims)[i]) == claims[i] {
      ParseOfStr(claims[i]);
    }
  }

  /** What the launcher prints, the wrapper reads back, whatever the command holds. */
  lemma {:induction false} ClaimArgumentsRoundTrip(claims: seq<Path>, inner: seq<string>)
    requires forall i :: 0 <= i < |claims| ==> Valid(claims[i])
    requires Acceptable(claims, inner)
    ensures Parsed([], Tail(Texts(claims), inner)) == Ok((claims, inner))
  {
    ParseAllOfTexts(claims);
    assert Tail(Texts(claims), inner) == Flags(Texts(claims)) + (["--"] + inner);
    ParsedOfFlags([], Texts(claims), ["--"] + inner);
    assert [] + claims == claims;
    JudgeIffAcceptable(claims, inner);
  }

  // ------------------------------------------------------------ socket claims

  /** One `bind_addresses` entry: its version and its compressed text. */
  datatype BindAddress = BindAddress(version: nat, compressed: string)

  /** The text of an address holds no NUL. */
  predicate ValidAddress(a: BindAddress) {
    '\0' !in a.compressed
  }

  /** The text whose SHA-256 names the claim of one UDP socket (host.py line 572). */
  function SocketKey(a: BindAddress, port: nat): string {
    "udp\0" + Decimal(a.version) + "\0" + a.compressed + "\0" + Decimal(port)
  }

  /** A NUL-free field ends where its NUL is. */
  lemma {:induction false} FieldsSplit(a: string, b: string, x: string, y: string)
    requires '\0' !in a && '\0' !in x
    requires a + "\0" + b == x + "\0" + y
    ensures a == x && b == y
    decreases |a|
  {
    var left, right := a + "\0" + b, x + "\0" + y;
    assert if a == "" then left[0] == '\0' else left[0] == a[0] && a[0] in a;
    assert if x == "" then right[0] == '\0' else right[0] == x[0] && x[0] in x;
    if a == "" {
      assert left[1..] == b && right[1..] == y;
    } else {
      assert left[1..] == a[1..] + "\0" + b && right[1..] == x[1..] + "\0" + y;
      FieldsSplit(a[1..], b, x[1..], y);
      assert a == [a[0]] + a[1..] && x == [x[0]] + x[1..];
    }
  }

  lemma KeyFieldsSplit(a: string, b: string, c: string, x: string, y: string, z: string)
    requires '\0' !in a && '\0' !in b && '\0' !in x && '\0' !in y
    requires "udp\0" + a + "\0" + b + "\0" + c == "udp\0" + x + "\0" + y + "\0" + z
    ensures a == x && b == y && c == z
  {
    var left, right := a + "\0" + (b + "\0" + c), x + "\0" + (y + "\0" + z);
    assert "udp\0" + a + "\0" + b + "\0" + c == "udp\0" + left;
    assert "udp\0" + x + "\0" + y + "\0" + z == "udp\0" + right;
    assert ("udp\0" + left)[4..] == left && ("udp\0" + right)[4..] == right;
    FieldsSplit(a, b + "\0" + c, x, y + "\0" + z);
    FieldsSplit(b, c, y, z);
  }

  lemma SocketKeyInjective(a: BindAddress, port: nat, b: BindAddress, port': nat)
    requires ValidAddress(a) && ValidAddress(b)
    requires SocketKey(a, port) == SocketKey(b, port')
    ensures a == b && port == port'
  {
    DecimalInjective(a.version, b.version);
    DecimalInjective(b.version, a.version);
    DecimalInjective(port, port');
    hide Decimal;
    KeyFieldsSplit(Decimal(a.version), a.compressed, Decimal(port), Decimal(b.version), b.compressed, Decimal(port'));
  }

  /** The text form of a SHA-256 digest. */
  ghost predicate HexDigest(hash: string -> string) {
    forall x :: |hash(x)| == 64 && forall i :: 0 <= i < 64 ==> IsLowerHex(hash(x)[i])
  }

  /** No two of these texts collide. */
  ghost predicate NoCollision(hash: string -> string, texts: set<string>) {
    forall x, y :: x in texts && y in texts && hash(x) == hash(y) ==> x == y
  }

  function SocketKeys(addresses: seq<BindAddress>, port: nat): set<string> {
    set i | 0 <= i < |addresses| :: SocketKey(addresses[i], port)
  }

  function ClaimPath(directory: Path, hash: string -> string, a: BindAddress, port: nat): Path {
    directory.(parts := directory.parts + [hash(SocketKey(a, port)) + ".lock"])
  }

  /** `socket_claim_paths` (host.py line 565), as texts: one per address, sorted. */
  function SocketClaims(directory: Path, hash: string -> string, addresses: seq<BindAddress>, port: nat): seq<string> {
    SortedSet(Texts(seq(|addresses|, i requires 0 <= i < |addresses| =>
      ClaimPath(directory, hash, addresses[i], port))))
  }

  lemma SocketClaimsContain(directory: Path, hash: string -> string, addresses: seq<BindAddress>, port: nat, text: string)
    ensures text in SocketClaims(directory, hash, addresses, port) <==>
            exists i :: 0 <= i < |addresses| && text == Str(ClaimPath(directory, hash, addresses[i], port))
  {
    var paths := seq(|addresses|, i requires 0 <= i < |addresses| => ClaimPath(directory, hash, addresses[i], port));
    SortedSetAscends(Texts(paths));
    if text in Texts(paths) {
      var i :| 0 <= i < |Texts(paths)| && Texts(paths)[i] == text;
      assert text == Str(ClaimPath(directory, hash, addresses[i], port));
    }
    if i :| 0 <= i < |addresses| && text == Str(ClaimPath(directory, hash, addresses[i], port)) {
      assert Texts(paths)[i] == text;
    }
  }

  lemma ClaimPathIsValid(directory: Path, hash: string -> string, a: BindAddress, port: nat)
    requires Valid(directory) && IsAbsolute(directory) && HexDigest(hash)
    ensures Valid(ClaimPath(directory, hash, a, port)) && IsAbsolute(ClaimPath(directory, hash, a, port))
    ensures Parent(ClaimPath(directory, hash, a, port)) == directory
    ensures IsClaimName(FileName(ClaimPath(directory, hash, a, port)))
  {
    var name := hash(SocketKey(a, port)) + ".lock";
    assert name[64..] == ".lock";
    assert forall i :: 0 <= i < |name| ==> name[i] != '/';
  }

  lemma SameClaimSameSocket(
    directory: Path, hash: string -> string, a: BindAddress, port: nat, b: BindAddress, port': nat)
    requires Valid(directory) && IsAbsolute(directory) && HexDigest(hash)
    requires ValidAddress(a) && ValidAddress(b)
    requires NoCollision(hash, {SocketKey(a, port), SocketKey(b, port')})
    requires Str(ClaimPath(directory, hash, a, port)) == Str(ClaimPath(directory, hash, b, port'))
    ensures a == b && port == port'
  {
    ClaimPathIsValid(directory, hash, a, port);
    ClaimPathIsValid(directory, hash, b, port');
    ParseOfStr(ClaimPath(directory, hash, a, port));
    ParseOfStr(ClaimPath(directory, hash, b, port'));
    var x, y := hash(SocketKey(a, port)), hash(SocketKey(b, port'));
    var p, q := ClaimPath(directory, hash, a, port), ClaimPath(directory, hash, b, port');
    assert p == q;
    assert p.parts[|directory.parts|] == x + ".lock" && q.parts[|directory.parts|] == y + ".lock";
    assert x == (x + ".lock")[..64] && y == (y + ".lock")[..64];
    SocketKeyInjective(a, port, b, port');
  }

  /** Two configurations claim a common file exactly when they bind a common UDP
    socket: an equal address and an equal port. */
  lemma {:induction false} ClaimsIntersectIffSocketsDo(
    directory: Path, hash: string -> string,
    addresses: seq<BindAddress>, port: nat, addresses': seq<BindAddress>, port': nat)
    requires Valid(directory) && IsAbsolute(directory) && HexDigest(hash)
    requires forall i :: 0 <= i < |addresses| ==> ValidAddress(addresses[i])
    requires forall i :: 0 <= i < |addresses'| ==> ValidAddress(addresses'[i])
    requires NoCollision(hash, SocketKeys(addresses, port) + SocketKeys(addresses', port'))
    ensures (exists text :: text in SocketClaims(directory, hash, addresses, port)
                            && text in SocketClaims(directory, hash, addresses', port'))
      <==> (port == port' && exists a :: a in addresses && a in addresses')
  {
    if text :| text in SocketClaims(directory, hash, addresses, port)
               && text in SocketClaims(directory, hash, addresses', port') {
      CommonClaimCommonSocket(directory, hash, addresses, port, addresses', port', text);
    }
    if port == port' {
      if a :| a in addresses && a in addresses' {
        SocketClaimsContain(directory, hash, addresses, port, Str(ClaimPath(directory, hash, a, port)));
        SocketClaimsContain(directory, hash, addresses', port', Str(ClaimPath(directory, hash, a, port)));
        hide *;
      }
    }
  }

  lemma CommonClaimCommonSocket(
    directory: Path, hash: string -> string,
    addresses: seq<BindAddress>, port: nat, addresses': seq<BindAddress>, port': nat, text: string)
    requires Valid(directory) && IsAbsolute(directory) && HexDigest(hash)
    requires forall i :: 0 <= i < |addresses| ==> ValidAddress(addresses[i])
    requires forall i :: 0 <= i < |addresses'| ==> ValidAddress(addresses'[i])
    requires NoCollision(hash, SocketKeys(addresses, port) + SocketKeys(addresses', port'))
    requires text in SocketClaims(directory, hash, addresses, port)
    requires text in SocketClaims(directory, hash, addresses', port')
    ensures port == port' && exists a :: a in addresses && a in addresses'
  {
    SocketClaimsContain(directory, hash, addresses, port, text);
    SocketClaimsContain(directory, hash, addresses', port', text);
    hide ClaimPath, SocketClaims, SocketKey, HexDigest, Valid, ValidAddress;
    var i :| 0 <= i < |addresses| && text == Str(ClaimPath(directory, hash, addresses[i], port));
    var k :| 0 <= k < |addresses'| && text == Str(ClaimPath(directory, hash, addresses'[k], port'));
    assert SocketKey(addresses[i], port) in SocketKeys(addresses, port);
    assert SocketKey(addresses'[k], port') in SocketKeys(addresses', port');
    SameClaimSameSocket(directory, hash, addresses[i], port, addresses'[k], port');
    assert addresses[i] in addresses && addresses[i] in addresses';
  }

  /** The claims derived for any configuration are accepted by the wrapper, and come
    back from its parser unchanged. */
  lemma {:induction false} SocketClaimsAreAccepted(
    directory: Path, hash: string -> string, addresses: seq<BindAddress>, port: nat, inner: seq<string>)
    requires Valid(directory) && IsAbsolute(directory) && HexDigest(hash)
    requires addresses != []
    requires inner != [] && IsAbsolute(Parse(inner[0]))
    ensures var texts := SocketClaims(directory, hash, addresses, port);
      && Texts(ParseAll(texts)) == texts
      && Parsed([], Tail(texts, inner)) == Ok((ParseAll(texts), inner))
  {
    var texts := SocketClaims(directory, hash, addresses, port);
    var claims := ParseAll(texts);
    forall i | 0 <= i < |texts|
      ensures Valid(claims[i]) && IsAbsolute(claims[i]) && Str(claims[i]) == texts[i]
      ensures Parent(claims[i]) == directory && IsClaimName(FileName(claims[i]))
    {
      assert texts[i] in texts;
      SocketClaimsContain(directory, hash, addresses, port, texts[i]);
      var k :| 0 <= k < |addresses| && texts[i] == Str(ClaimPath(directory, hash, addresses[k], port));
      ClaimPathIsValid(directory, hash, addresses[k], port);
      ParseOfStr(ClaimPath(directory, hash, addresses[k], port));
    }
    assert Texts(claims) == texts;
    var first := Str(ClaimPath(directory, hash, addresses[0], port));
    SocketClaimsContain(directory, hash, addresses, port, first);
    assert first in texts;
    SortedSetAscends(Texts(seq(|addresses|, i requires 0 <= i < |addresses| =>
      ClaimPath(directory, hash, addresses[i], port))));
    ClaimArgumentsRoundTrip(claims, inner);
  }
}
