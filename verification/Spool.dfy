/** The durable log spool of `src/logs.rs`: a directory of sequenced chunk files, bounded in size. */
module Spool {
  import opened Decimal
  import opened Ordering
  import opened Outcomes
  import opened Totals

  type U64 = n: nat | n < U64_LIMIT
  const U64_MAX: U64 := U64_LIMIT - 1
  const LOG_CHUNK_BYTES: nat := 64 * 1024
  const MAX_SPOOL_BYTES: nat := 64 * 1024 * 1024

  datatype Kind = Chunk | Terminator {
    function Suffix(): string { if this == Chunk then "chunk" else "terminator" }
  }

  // ---------------------------------------------------------------------------------------------
  // File names
  // ---------------------------------------------------------------------------------------------

  function Zeros(n: nat): (s: string)
    ensures |s| == n && forall i :: 0 <= i < n ==> s[i] == '0'
  {
    seq(n, i => '0')
  }

  /** At least twenty digits. */
  function Padded(digits: string): string {
    if |digits| < 20 then Zeros(20 - |digits|) + digits else digits
  }

  /** `{sequence:020}.{suffix}`. */
  function PrintName(sequence: nat, kind: Kind): string { Padded(NatText(sequence)) + "." + kind.Suffix() }

  function TemporaryOf(name: string): string { "." + name + ".tmp" }

  function FirstDot(s: string): (i: nat)
    ensures i <= |s| && (i < |s| ==> s[i] == '.') && forall j :: 0 <= j < i ==> s[j] != '.'
  {
    if |s| == 0 || s[0] == '.' then 0 else 1 + FirstDot(s[1..])
  }

  /** What Rust reads as a u64: digits, perhaps after a plus sign, that do not overflow. */
  function ParseU64(s: string): Option<nat> {
    var digits := if |s| > 0 && s[0] == '+' then s[1..] else s;
    if digits != "" && AllDigits(digits) && Value(digits) < U64_LIMIT then Some(Value(digits)) else None
  }

  function ParseName(name: string): Option<(nat, Kind)> {
    var dot := FirstDot(name);
    if dot == |name| then None
    else
      match ParseU64(name[..dot])
      case None => None
      case Some(sequence) =>
        var suffix := name[dot + 1..];
        if suffix == "chunk" then Some((sequence, Chunk))
        else if suffix == "terminator" then Some((sequence, Terminator))
        else None
  }

  /** The name a temporary file is recovered under, if it is one of the spool's. */
  function FinalOf(name: string): Option<string> {
    if |name| >= 5 && name[0] == '.' && name[|name| - 4..] == ".tmp" && ParseName(name[1..|name| - 4]).Some?
    then Some(name[1..|name| - 4])
    else None
  }

  lemma {:induction false} ZerosCountNothing(n: nat, digits: string)
    requires AllDigits(digits)
    ensures AllDigits(Zeros(n) + digits) && Value(Zeros(n) + digits) == Value(digits)
    decreases |digits|, n
  {
    var s := Zeros(n) + digits;
    if |digits| > 0 {
      ZerosCountNothing(n, digits[..|digits| - 1]);
      assert s[..|s| - 1] == Zeros(n) + digits[..|digits| - 1];
    } else if n > 0 {
      ZerosCountNothing(n - 1, digits);
      assert s[..|s| - 1] == Zeros(n - 1) + digits;
    }
  }

  lemma FirstDotAt(a: string, b: string)
    requires forall j :: 0 <= j < |a| ==> a[j] != '.'
    ensures FirstDot(a + "." + b) == |a|
  {
    var s := a + "." + b;
    assert s[|a|] == '.';
    assert forall j :: 0 <= j < |a| ==> s[j] == a[j];
  }

  lemma DigitsReadBack(digits: string, kind: Kind)
    requires digits != "" && AllDigits(digits) && Value(digits) < U64_LIMIT
    ensures ParseName(digits + "." + kind.Suffix()) == Some((Value(digits), kind))
  {
    var name := digits + "." + kind.Suffix();
    FirstDotAt(digits, kind.Suffix());
    assert name[..|digits|] == digits && name[|digits| + 1..] == kind.Suffix();
  }

  lemma PrintedDigits(sequence: nat)
    ensures
      var padded := Padded(NatText(sequence));
      padded != "" && AllDigits(padded) && Value(padded) == sequence
  {
    var digits := NatText(sequence);
    NatTextValue(sequence);
    ZerosCountNothing(if |digits| < 20 then 20 - |digits| else 0, digits);
  }

  lemma TemporaryReadsBack(name: string)
    requires ParseName(name).Some?
    ensures ParseName(TemporaryOf(name)) == None && FinalOf(TemporaryOf(name)) == Some(name)
  {
    var temporary := TemporaryOf(name);
    assert temporary[0] == '.' && temporary[..0] == "";
    assert temporary[1..|temporary| - 4] == name && temporary[|temporary| - 4..] == ".tmp";
  }

  /** Every name the spool prints reads back as the same sequence and kind, so no two chunks share
      a file, and every temporary name leads back to the final name it stands for and is itself
      never taken for a chunk. */
  lemma NamesReadBack(sequence: nat, kind: Kind)
    requires sequence <= U64_MAX
    ensures ParseName(PrintName(sequence, kind)) == Some((sequence, kind))
    ensures ParseName(TemporaryOf(PrintName(sequence, kind))) == None
    ensures FinalOf(TemporaryOf(PrintName(sequence, kind))) == Some(PrintName(sequence, kind))
  {
    PrintedDigits(sequence);
    DigitsReadBack(Padded(NatText(sequence)), kind);
    TemporaryReadsBack(PrintName(sequence, kind));
  }

  /** The digits of a number that fits a u64, perhaps after a plus sign. */
  predicate SpellsNumber(number: string, plus: bool, digits: string) {
    && digits != "" && AllDigits(digits) && Value(digits) < 0x1_0000_0000_0000_0000
    && number == if plus then "+" + digits else digits
  }

  lemma NumberIsRead(number: string, plus: bool, digits: string)
    requires SpellsNumber(number, plus, digits)
    ensures ParseU64(number) == Some(Value(digits)) && forall j :: 0 <= j < |number| ==> number[j] != '.'
  {
    if plus {
      assert number[0] == '+' && number[1..] == digits;
    } else {
      assert number[0] == digits[0];
    }
  }

  lemma ReadNumberIsSpelled(number: string)
    requires ParseU64(number).Some?
    ensures exists plus, digits :: SpellsNumber(number, plus, digits) && Value(digits) == ParseU64(number).value
  {
    if number[0] == '+' {
      assert number == "+" + number[1..];
      assert SpellsNumber(number, true, number[1..]);
    } else {
      assert SpellsNumber(number, false, number);
    }
  }

  lemma PartsAreRead(number: string, kind: Kind)
    requires forall j :: 0 <= j < |number| ==> number[j] != '.'
    ensures
      ParseName(number + "." + kind.Suffix()) ==
        if ParseU64(number).Some? then Some((ParseU64(number).value, kind)) else None
  {
    var name := number + "." + kind.Suffix();
    FirstDotAt(number, kind.Suffix());
    assert name[..|number|] == number && name[|number| + 1..] == kind.Suffix();
  }

  lemma ReadNameHasParts(name: string)
    requires ParseName(name).Some?
    ensures ParseU64(name[..FirstDot(name)]).Some?
    ensures ParseName(name).value.0 == ParseU64(name[..FirstDot(name)]).value
    ensures name == name[..FirstDot(name)] + "." + ParseName(name).value.1.Suffix()
  {
    var dot := FirstDot(name);
    assert name == name[..dot] + "." + name[dot + 1..];
  }

  predicate Spells(name: string, plus: bool, digits: string, kind: Kind, number: string) {
    SpellsNumber(number, plus, digits) && name == number + "." + kind.Suffix()
  }

  /** A name is read as a chunk exactly if it is a number in decimal, perhaps after a plus sign, and the
      suffix of the kind. */
  lemma NamesReadExactly(name: string, sequence: nat, kind: Kind)
    ensures
      ParseName(name) == Some((sequence, kind)) <==>
        exists plus, digits, number :: Spells(name, plus, digits, kind, number) && Value(digits) == sequence
  {
    if ParseName(name) == Some((sequence, kind)) {
      var number := name[..FirstDot(name)];
      ReadNameHasParts(name);
      ReadNumberIsSpelled(number);
      var plus, digits :| SpellsNumber(number, plus, digits) && Value(digits) == sequence;
      assert Spells(name, plus, digits, kind, number);
    }
    if plus, digits, number :| Spells(name, plus, digits, kind, number) && Value(digits) == sequence {
      NumberIsRead(number, plus, digits);
      PartsAreRead(number, kind);
    }
  }

  lemma {:induction false} DigitsDetermine(a: string, b: string)
    requires AllDigits(a) && AllDigits(b) && |a| == |b| && Value(a) == Value(b)
    ensures a == b
  {
    if |a| > 0 {
      DigitsDetermine(a[..|a| - 1], b[..|b| - 1]);
      assert a == a[..|a| - 1] + [a[|a| - 1]] && b == b[..|b| - 1] + [b[|b| - 1]];
    }
  }

  function Power10(k: nat): nat { if k == 0 then 1 else 10 * Power10(k - 1) }

  lemma {:induction false} NatTextFits(n: nat, k: nat)
    requires k > 0 && n < Power10(k)
    ensures |NatText(n)| <= k
  {
    if n >= 10 { NatTextFits(n / 10, k - 1); }
  }

  lemma PaddedIsTwenty(sequence: U64)
    ensures |Padded(NatText(sequence))| == 20
  {
    assert Power10(5) == 100_000;
    assert Power10(10) == 10_000_000_000;
    assert Power10(15) == 1_000_000_000_000_000;
    assert Power10(20) == 100_000_000_000_000_000_000;
    NatTextFits(sequence, 20);
  }

  /** Of the names that read as a chunk the spool prints exactly those with twenty digits before the
      dot. */
  lemma PrintedExactly(name: string, sequence: U64, kind: Kind)
    requires ParseName(name) == Some((sequence, kind))
    ensures name == PrintName(sequence, kind) <==> FirstDot(name) == 20 && AllDigits(name[..20])
  {
    var padded := Padded(NatText(sequence));
    PaddedIsTwenty(sequence);
    PrintedDigits(sequence);
    if name == PrintName(sequence, kind) {
      FirstDotAt(padded, kind.Suffix());
      assert name[..20] == padded;
    }
    if FirstDot(name) == 20 && AllDigits(name[..20]) {
      TwentyDigits(name, sequence, kind);
      DigitsDetermine(name[..20], padded);
    }
  }

  /** Reading is not one-to-one: two names that the spool never prints read as one chunk. */
  lemma SomeForeignNamesRead()
    ensures ParseName("7.chunk") == ParseName("+7.chunk") == Some((7, Chunk))
    ensures PrintName(7, Chunk) != "7.chunk" && PrintName(7, Chunk) != "+7.chunk"
  {
    FirstDotAt("7", "chunk");
    FirstDotAt("+7", "chunk");
    assert "7" + "." + "chunk" == "7.chunk" && "+7" + "." + "chunk" == "+7.chunk";
    assert "7.chunk"[..1] == "7" && "7.chunk"[2..] == "chunk";
    assert "+7.chunk"[..2] == "+7" && "+7.chunk"[3..] == "chunk" && "+7"[1..] == "7";
    assert Value("7") == 10 * Value("7"[..0]) + 7;
  }

  lemma TwentyDigits(name: string, sequence: U64, kind: Kind)
    requires ParseName(name) == Some((sequence, kind)) && FirstDot(name) == 20 && AllDigits(name[..20])
    ensures Value(name[..20]) == sequence && name == name[..20] + "." + kind.Suffix()
  {
    assert name[..20][0] != '+';
    assert name == name[..20] + [name[20]] + name[21..];
  }

  // ---------------------------------------------------------------------------------------------
  // The directory, and what recovery makes of it
  // ---------------------------------------------------------------------------------------------

  datatype PendingChunk = PendingChunk(sequence: U64, kind: Kind)

  type Chunks = map<PendingChunk, string>

  /** By `NamesReadBack` a file of the spool is its sequence, its kind and whether it is temporary. */
  datatype Files = Files(stored: Chunks, temporary: Chunks) {
    /** A temporary file becomes a chunk, however little of it was written, unless it has a final
        version. */
    function Recovered(): Chunks { temporary + stored }
  }

  predicate ChunkLess(a: PendingChunk, b: PendingChunk) {
    a.sequence < b.sequence || (a.sequence == b.sequence && a.kind == Chunk && b.kind == Terminator)
  }

  lemma ChunkTotal()
    ensures StrictTotal(ChunkLess)
  {
  }

  function Saturated(n: nat): U64 { if n < U64_LIMIT then n else U64_MAX }

  function Length(content: string): nat { |content| }

  ghost function Size(chunks: Chunks): nat { Total(chunks, Length) }

  /** What `open` hands out next: one more than the largest stored sequence, or 1, without ever
      passing the largest u64. */
  ghost predicate Follows(next: U64, chunks: Chunks) {
    && 1 <= next
    && (forall c :: c in chunks ==> Saturated(c.sequence + 1) <= next)
    && (next == 1 || exists c :: c in chunks && next == Saturated(c.sequence + 1))
  }

  /** The next sequence is new exactly when the last u64 has not been stored. */
  lemma NextIsNew(next: U64, chunks: Chunks)
    requires Follows(next, chunks)
    ensures (forall c :: c in chunks ==> c.sequence < next) <==> (forall c :: c in chunks ==> c.sequence < U64_MAX)
  {
    if c :| c in chunks && c.sequence == U64_MAX {
      assert Saturated(c.sequence + 1) == U64_MAX;
    }
  }

  // ---------------------------------------------------------------------------------------------
  // The spool
  // ---------------------------------------------------------------------------------------------

  /** What outlives the process. */
  class Directory {
    /** Whether the disk can be relied on. */
    const reliable: bool
    var files: Files

    constructor (reliable: bool)
      ensures this.reliable == reliable && files == Files(map[], map[])
    {
      this.reliable, files := reliable, Files(map[], map[]);
    }

    /** `recover_temporary_files`. It may stop anywhere, and what it leaves recovers to the same. */
    method RecoverTemporaryFiles() returns (ok: bool)
      modifies this
      ensures files.Recovered() == old(files).Recovered()
      ensures ok ==> files == Files(old(files).Recovered(), map[])
      ensures reliable ==> ok
    {
      var left := files.temporary.Keys;
      while left != {}
        invariant files.temporary.Keys == left
        invariant files.Recovered() == old(files).Recovered()
        decreases left
      {
        var c :| c in left;
        var fails: bool := *;
        if fails && !reliable { return false; }
        var recovered := if c in files.stored then files.stored else files.stored[c := files.temporary[c]];
        files := Files(recovered, files.temporary - {c});
        left := left - {c};
      }
      assert files.temporary == map[];
      ok := true;
    }

    /** Creates the temporary file of a chunk and writes it piece by piece. */
    method Fill(c: PendingChunk, content: string) returns (ok: bool)
      modifies this
      ensures files.stored == old(files.stored)
      ensures ok ==> files.temporary == old(files.temporary)[c := content]
      ensures reliable ==> ok
      ensures !ok ==> exists k :: 0 <= k <= |content| && files.temporary == old(files.temporary)[c := content[..k]]
    {
      files := files.(temporary := files.temporary[c := ""]);
      var written := 0;
      while written < |content|
        invariant 0 <= written <= |content|
        invariant files == old(files).(temporary := old(files.temporary)[c := content[..written]])
      {
        var fails: bool := *;
        if fails && !reliable { return false; }
        var size: int := *;
        if size < 1 || written + size > |content| { size := 1; }
        var more := files.temporary[c] + content[written..written + size];
        assert more == content[..written + size];
        files := files.(temporary := files.temporary[c := more]);
        written := written + size;
      }
      assert content[..written] == content;
      ok := true;
    }

    method Rename(c: PendingChunk)
      requires c in files.temporary
      modifies this
      ensures files == Files(old(files.stored)[c := old(files.temporary)[c]], old(files.temporary) - {c})
    {
      files := Files(files.stored[c := files.temporary[c]], files.temporary - {c});
    }
  }

  ghost predicate Opened(files: Files, after: Files, bytes: U64, next: U64) {
    && after == Files(files.Recovered(), map[])
    && bytes == Saturated(Size(after.stored))
    && Follows(next, after.stored)
  }

  ghost predicate StoreDone(files: Files, bytes: U64, c: PendingChunk, content: string, after: Files, bytes': U64) {
    && bytes + |content| <= MAX_SPOOL_BYTES && c !in files.temporary
    && after == files.(stored := files.stored[c := content]) && bytes' == bytes + |content|
  }

  /** A store that fails, or whose process stops, leaves at most a torn temporary file. */
  ghost predicate StoreFailed(files: Files, bytes: U64, c: PendingChunk, content: string, after: Files) {
    || after == files
    || (&& bytes + |content| <= MAX_SPOOL_BYTES && c !in files.temporary
        && exists k :: 0 <= k <= |content| && after == files.(temporary := files.temporary[c := content[..k]]))
  }

  /** A removed chunk whose size could not be read counts on. */
  ghost predicate RemoveDone(
    files: Files, bytes: U64, c: PendingChunk, measured: bool, after: Files, bytes': U64)
  {
    && after == files.(stored := files.stored - {c})
    && var size := if measured && c in files.stored then |files.stored[c]| else 0;
       bytes' == if size <= bytes then bytes - size else 0
  }

  class Spool {
    const directory: Directory
    var bytes: U64
    var nextSequence: U64

    constructor (directory: Directory, bytes: U64, nextSequence: U64)
      ensures this.directory == directory && this.bytes == bytes && this.nextSequence == nextSequence
    {
      this.directory, this.bytes, this.nextSequence := directory, bytes, nextSequence;
    }

    /** `open`: recover, then count the bytes and find the next sequence. */
    static method Open(directory: Directory) returns (r: Result<Spool>)
      modifies directory
      ensures directory.files.Recovered() == old(directory.files).Recovered()
      ensures directory.reliable ==> r.Ok?
      ensures r.Ok? ==>
        && fresh(r.value) && r.value.directory == directory
        && Opened(old(directory.files), directory.files, r.value.bytes, r.value.nextSequence)
    {
      var recovered := directory.RecoverTemporaryFiles();
      if !recovered { return Err("recover temporary files"); }
      var bytes, next := Count(directory.files.stored);
      var spool := new Spool(directory, bytes, next);
      r := Ok(spool);
    }

    static method Count(chunks: Chunks) returns (bytes: U64, next: U64)
      ensures bytes == Saturated(Size(chunks)) && Follows(next, chunks)
    {
      bytes, next := 0, 1;
      ghost var seen: Chunks := map[];
      var left := chunks.Keys;
      while left != {}
        invariant seen.Keys !! left && seen.Keys + left == chunks.Keys
        invariant forall c :: c in seen ==> seen[c] == chunks[c]
        invariant bytes == Saturated(Size(seen)) && Follows(next, seen)
        decreases left
      {
        var c :| c in left;
        TotalGrows(seen, Length, c, chunks[c]);
        bytes := Saturated(bytes + |chunks[c]|);
        if Saturated(c.sequence + 1) > next { next := Saturated(c.sequence + 1); }
        FollowsGrows(seen, c, chunks[c]);
        seen := seen[c := chunks[c]];
        left := left - {c};
      }
      assert seen == chunks;
    }

    /** `pending`: the chunks in order, or an error of the directory. */
    method Pending() returns (r: Result<seq<PendingChunk>>)
      ensures directory.reliable ==> r.Ok?
      ensures r.Ok? ==> Sorted(ChunkLess, r.value) && Elements(r.value) == directory.files.stored.Keys
    {
      var fails: bool := *;
      if fails && !directory.reliable { return Err("read the spool"); }
      ChunkTotal();
      var pending := Sort(ChunkLess, directory.files.stored.Keys);
      r := Ok(pending);
    }

    method Read(chunk: PendingChunk) returns (r: Result<string>)
      ensures directory.reliable && chunk in directory.files.stored ==> r.Ok?
      ensures r.Ok? ==> chunk in directory.files.stored && r.value == directory.files.stored[chunk]
    {
      var fails: bool := *;
      if (fails && !directory.reliable) || chunk !in directory.files.stored { return Err("read the chunk"); }
      r := Ok(directory.files.stored[chunk]);
    }

    /** `store`: a bounded, never overwriting write of a temporary file, then a rename. */
    method Store(chunk: PendingChunk, content: string) returns (ok: bool)
      modifies this`bytes, directory
      ensures ok ==> StoreDone(old(directory.files), old(bytes), chunk, content, directory.files, bytes)
      ensures !ok ==> StoreFailed(old(directory.files), old(bytes), chunk, content, directory.files)
      ensures !ok ==> bytes == old(bytes)
      ensures directory.reliable ==>
        (ok <==> old(bytes) + |content| <= MAX_SPOOL_BYTES && chunk !in old(directory.files.temporary))
    {
      ok := false;
      var fails: bool := *;
      if bytes + |content| > MAX_SPOOL_BYTES || chunk in directory.files.temporary { return; }
      if fails && !directory.reliable { return; }
      var written := directory.Fill(chunk, content);
      fails := *;
      if !written || (fails && !directory.reliable) {
        TornFile(old(directory.files), directory.files, chunk, content);
        return;
      }
      directory.Rename(chunk);
      bytes := bytes + |content|;
      ok := true;
    }

    method Remove(chunk: PendingChunk) returns (ok: bool, ghost measured: bool)
      modifies this`bytes, directory
      ensures ok ==> RemoveDone(old(directory.files), old(bytes), chunk, measured, directory.files, bytes)
      ensures !ok ==> directory.files == old(directory.files) && bytes == old(bytes)
      ensures directory.reliable ==> ok && measured
    {
      var sized: bool := *;
      if directory.reliable { sized := true; }
      measured := sized;
      var size := if sized && chunk in directory.files.stored then |directory.files.stored[chunk]| else 0;
      var fails: bool := *;
      if fails && !directory.reliable { return false, measured; }
      directory.files := directory.files.(stored := directory.files.stored - {chunk});
      bytes := if size <= bytes then bytes - size else 0;
      ok := true;
    }

    predicate IsEmpty()
      reads this
    {
      bytes == 0
    }

    method AllocateSequence() returns (sequence: U64)
      modifies this`nextSequence
      ensures sequence == old(nextSequence) && nextSequence == Saturated(sequence + 1)
    {
      sequence := nextSequence;
      nextSequence := Saturated(nextSequence + 1);
    }
  }

  lemma TornFile(files: Files, after: Files, c: PendingChunk, content: string)
    requires after.stored == files.stored
    requires
      || after.temporary == files.temporary[c := content]
      || exists k :: 0 <= k <= |content| && after.temporary == files.temporary[c := content[..k]]
    ensures exists k :: 0 <= k <= |content| && after == files.(temporary := files.temporary[c := content[..k]])
  {
    assert content[..|content|] == content;
  }

  lemma FollowsGrows(chunks: Chunks, c: PendingChunk, content: string)
    requires c !in chunks
    ensures forall next: U64 :: Follows(next, chunks) ==>
      Follows(if Saturated(c.sequence + 1) > next then Saturated(c.sequence + 1) else next, chunks[c := content])
  {
    forall next: U64 | Follows(next, chunks)
      ensures
        Follows(if Saturated(c.sequence + 1) > next then Saturated(c.sequence + 1) else next, chunks[c := content])
    {
      var more := chunks[c := content];
      assert c in more;
      assert next == 1 || exists d :: d in chunks && d in more && next == Saturated(d.sequence + 1);
    }
  }
}
