/** `InventoryValidator`: a directory holds a valid inventory when its
    `inventory.json` exists, loads, and is vouched for by the side-car file
    `inventory.json.<digestAlgorithm>`, whose whole content must be the
    digest of the inventory, whitespace, and the word `inventory.json`. */
module InventoryValidator {
  import opened Wrappers
  import opened Strings
  import opened Errors
  import opened Inventories
  import opened FileSystem
  import opened InventoryLoader

  const INVENTORY_FILE: string := "inventory.json"

  /** `inventory_file` */
  function InventoryFile(dir: string): string {
    PathJoin(dir, INVENTORY_FILE)
  }

  /** `inventory_checksum_file`: named after the algorithm the inventory declares. */
  function ChecksumFileName(dir: string, alg: string): (r: string)
    ensures r == InventoryFile(dir) + "." + alg
  {
    PathJoin(dir, INVENTORY_FILE + "." + alg)
  }

  /** `Checksum.new(alg).file`: only sha512 and md5 have an implementation;
      for the other algorithms the call goes to nil and raises. */
  function ChecksumOf(alg: string, contents: string, env: Env): (r: Attempt<string>)
    ensures r.Success? <==> alg == "sha512" || alg == "md5"
    ensures r.Success? ==> r.value == env.digest(alg, contents)
  {
    if alg == "sha512" || alg == "md5" then Success(env.digest(alg, contents))
    else Failure(NoMethodError("file"))
  }

  /** Every character is whitespace as `\s` means it. */
  predicate AllSpace(s: string) {
    forall i :: 0 <= i < |s| ==> IsSpace(s[i])
  }

  /** `content.match?(/\A#{digest}\s+inventory\.json\z/)`, reading the
      digest literally: the content, from its start to its very end, is the
      digest, at least one whitespace character, then `inventory.json`. */
  predicate ChecksumLineMatches(content: string, digest: string) {
    && StartsWith(content, digest)
    && EndsWith(content[|digest|..], INVENTORY_FILE)
    && var gap := content[|digest|..|content| - |INVENTORY_FILE|];
       gap != [] && AllSpace(gap)
  }

  /** The side-car pattern stated as the shape of the whole content. */
  lemma ChecksumLineShape(content: string, digest: string)
    ensures ChecksumLineMatches(content, digest)
            <==> exists gap :: gap != [] && AllSpace(gap) && content == digest + gap + INVENTORY_FILE
  {
    if ChecksumLineMatches(content, digest) {
      var gap := content[|digest|..|content| - |INVENTORY_FILE|];
      assert content == digest + gap + INVENTORY_FILE by {
        assert content == content[..|digest|] + content[|digest|..];
        var rest := content[|digest|..];
        assert rest == rest[..|rest| - |INVENTORY_FILE|] + rest[|rest| - |INVENTORY_FILE|..];
      }
    }
    if exists gap :: gap != [] && AllSpace(gap) && content == digest + gap + INVENTORY_FILE {
      var gap :| gap != [] && AllSpace(gap) && content == digest + gap + INVENTORY_FILE;
      assert content[..|digest|] == digest;
      assert content[|digest|..] == gap + INVENTORY_FILE;
      assert content[|digest|..|content| - |INVENTORY_FILE|] == gap;
    }
  }

  /** The line the writer puts in the side-car is accepted. */
  lemma WriterLineAccepted(digest: string)
    ensures ChecksumLineMatches(digest + " " + INVENTORY_FILE, digest)
  {
    var content := digest + " " + INVENTORY_FILE;
    assert content == digest + [' '] + INVENTORY_FILE;
    assert AllSpace([' ']);
    ChecksumLineShape(content, digest);
  }

  /** The pattern is anchored at the very end: a trailing newline is refused. */
  lemma TrailingNewlineRejected(digest: string)
    ensures !ChecksumLineMatches(digest + " " + INVENTORY_FILE + "\n", digest)
  {
    var content := digest + " " + INVENTORY_FILE + "\n";
    assert content[|content| - 1] == '\n';
  }

  /** A side-car naming another digest of the same length is refused. */
  lemma OtherDigestRejected(content: string, digest: string, other: string)
    requires |other| == |digest| && other != digest
    requires StartsWith(content, other)
    ensures !ChecksumLineMatches(content, digest)
  {
  }

  /** The writer's line for another digest of the same length is refused. */
  lemma OtherLineRejected(digest: string, other: string)
    requires |other| == |digest| && other != digest
    ensures !ChecksumLineMatches(other + " " + INVENTORY_FILE, digest)
  {
    var content := other + " " + INVENTORY_FILE;
    assert content[..|other|] == other;
    OtherDigestRejected(content, digest, other);
  }

  /** `valid?`: the inventory exists, it loads, and its side-car matches. A
      raise while loading or checksumming propagates. */
  function IsValid(fs: Fs, dir: string, env: Env): (r: Attempt<bool>)
    ensures !Exists(fs, InventoryFile(dir)) ==> r == Success(false)
    ensures r == Success(true) ==>
              var load := Load(fs, InventoryFile(dir), env);
              && load.Success? && load.value.Success?
              && var alg := load.value.value.digestAlgorithm;
                 && (alg == "sha512" || alg == "md5")
                 && ChecksumFileName(dir, alg) in fs.files
                 && ChecksumLineMatches(fs.files[ChecksumFileName(dir, alg)],
                                        env.digest(alg, fs.files[InventoryFile(dir)]))
  {
    var file := InventoryFile(dir);
    if !Exists(fs, file) then Success(false)
    else
      var load := Load(fs, file, env);
      if load.Failure? then Failure(load.error)
      else if load.value.Failure? then Success(false)
      else SidecarMatches(fs, dir, env, load.value.value.digestAlgorithm)
  }

  /** `inventory_file_matches_checksum?` once the inventory has loaded and
      named its algorithm. */
  function SidecarMatches(fs: Fs, dir: string, env: Env, alg: string): (r: Attempt<bool>)
    requires InventoryFile(dir) in fs.files
    ensures ChecksumFileName(dir, alg) in fs.files && (alg == "sha512" || alg == "md5") ==>
              r == Success(ChecksumLineMatches(fs.files[ChecksumFileName(dir, alg)],
                                               env.digest(alg, fs.files[InventoryFile(dir)])))
    ensures r == Success(true) ==>
              && (alg == "sha512" || alg == "md5")
              && ChecksumFileName(dir, alg) in fs.files
              && ChecksumLineMatches(fs.files[ChecksumFileName(dir, alg)],
                                     env.digest(alg, fs.files[InventoryFile(dir)]))
  {
    var sidecar := ChecksumFileName(dir, alg);
    if !Exists(fs, sidecar) then Success(false)
    else
      var actual := ChecksumOf(alg, fs.files[InventoryFile(dir)], env);
      if actual.Failure? then Failure(actual.error)
      else
        var content := Read(fs, sidecar);
        if content.Failure? then Failure(content.error)
        else Success(ChecksumLineMatches(content.value, actual.value))
  }

  /** An inventory the schema refuses makes the directory invalid, whatever
      its side-car says. */
  lemma SchemaInvalidIsInvalid(fs: Fs, dir: string, env: Env)
    requires InventoryFile(dir) in fs.files
    requires env.parse(fs.files[InventoryFile(dir)]).Some?
    requires !SchemaOk(env.parse(fs.files[InventoryFile(dir)]).value)
    ensures IsValid(fs, dir, env) == Success(false)
  {
  }

  /** A loadable inventory without its side-car is invalid. */
  lemma MissingSidecarIsInvalid(fs: Fs, dir: string, env: Env, inv: InventoryStruct)
    requires Load(fs, InventoryFile(dir), env) == Success(Success(inv))
    requires !Exists(fs, ChecksumFileName(dir, inv.digestAlgorithm))
    ensures IsValid(fs, dir, env) == Success(false)
  {
  }

  /** Once the inventory loads with an algorithm that has an
      implementation and its side-car is a file, the side-car line alone
      decides. */
  lemma SidecarDecides(fs: Fs, dir: string, env: Env, inv: InventoryStruct)
    requires Load(fs, InventoryFile(dir), env) == Success(Success(inv))
    requires inv.digestAlgorithm == "sha512" || inv.digestAlgorithm == "md5"
    requires ChecksumFileName(dir, inv.digestAlgorithm) in fs.files
    ensures IsValid(fs, dir, env)
            == Success(ChecksumLineMatches(fs.files[ChecksumFileName(dir, inv.digestAlgorithm)],
                                           env.digest(inv.digestAlgorithm, fs.files[InventoryFile(dir)])))
  {
  }

  /** A side-car recording a different digest makes the directory invalid. */
  lemma MismatchIsInvalid(fs: Fs, dir: string, env: Env, inv: InventoryStruct, other: string)
    requires Load(fs, InventoryFile(dir), env) == Success(Success(inv))
    requires inv.digestAlgorithm == "sha512" || inv.digestAlgorithm == "md5"
    requires ChecksumFileName(dir, inv.digestAlgorithm) in fs.files
    requires fs.files[ChecksumFileName(dir, inv.digestAlgorithm)] == other + " " + INVENTORY_FILE
    requires |other| == |env.digest(inv.digestAlgorithm, fs.files[InventoryFile(dir)])|
    requires other != env.digest(inv.digestAlgorithm, fs.files[InventoryFile(dir)])
    ensures IsValid(fs, dir, env) == Success(false)
  {
    var side := fs.files[ChecksumFileName(dir, inv.digestAlgorithm)];
    var actual := env.digest(inv.digestAlgorithm, fs.files[InventoryFile(dir)]);
    assert !ChecksumLineMatches(side, actual) by { OtherLineRejected(actual, other); }
    SidecarDecides(fs, dir, env, inv);
  }

  /** What the writer leaves in a directory validates: the serialised
      inventory and a side-car holding its digest line. */
  lemma WrittenDirectoryIsValid(fs: Fs, dir: string, env: Env, inv: InventoryStruct)
    requires Keyed(inv) && Conforms(inv)
    requires inv.digestAlgorithm == "sha512" || inv.digestAlgorithm == "md5"
    requires InventoryFile(dir) in fs.files
    requires env.parse(fs.files[InventoryFile(dir)]) == Some(InventoryToJson(inv))
    requires ChecksumFileName(dir, inv.digestAlgorithm) in fs.files
    requires fs.files[ChecksumFileName(dir, inv.digestAlgorithm)]
             == env.digest(inv.digestAlgorithm, fs.files[InventoryFile(dir)]) + " " + INVENTORY_FILE
    ensures IsValid(fs, dir, env) == Success(true)
  {
    WrittenInventoryLoads(fs, InventoryFile(dir), env, inv);
    WriterLineAccepted(env.digest(inv.digestAlgorithm, fs.files[InventoryFile(dir)]));
    SidecarDecides(fs, dir, env, inv);
  }
}
