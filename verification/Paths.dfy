/** Relative paths and their text (`src/archive.rs:341-364`). */
module Paths {
  import opened Outcomes

  const MAX_ARCHIVE_PATH_BYTES: nat := 4 * 1024
  const MAX_ARCHIVE_PATH_DEPTH: nat := 64

  type Path = seq<string>

  predicate IsParent(piece: string) { piece == ".." }

  predicate IsCurrent(piece: string) { piece == "" || piece == "." }

  predicate NoSlash(piece: string) { forall i :: 0 <= i < |piece| ==> piece[i] != '/' }

  predicate IsName(name: string) { !IsCurrent(name) && !IsParent(name) && NoSlash(name) }

  predicate IsPath(p: Path) { forall i :: 0 <= i < |p| ==> IsName(p[i]) }

  function Join(p: Path): string {
    if |p| == 0 then ""
    else if |p| == 1 then p[0] else p[0] + "/" + Join(p[1..])
  }

  function FirstSlash(text: string): (i: nat)
    ensures i <= |text| && (i < |text| ==> text[i] == '/') && forall j :: 0 <= j < i ==> text[j] != '/'
  {
    if |text| == 0 || text[0] == '/' then 0 else 1 + FirstSlash(text[1..])
  }

  function Split(text: string): (pieces: seq<string>)
    ensures |pieces| > 0 && forall i :: 0 <= i < |pieces| ==> NoSlash(pieces[i])
  {
    var i := FirstSlash(text);
    if i == |text| then [text] else [text[..i]] + Split(text[i + 1..])
  }

  /** The components that count: empty ones and single dots are dropped. */
  function Names(pieces: seq<string>): (names: Path)
    ensures |names| <= |pieces|
  {
    if |pieces| == 0 then []
    else Names(pieces[..|pieces| - 1]) + Named(pieces[|pieces| - 1])
  }

  function Named(piece: string): Path { if IsCurrent(piece) then [] else [piece] }

  lemma {:induction false} NamesGrow(pieces: seq<string>, i: nat)
    requires i <= |pieces|
    ensures |Names(pieces[..i])| <= |Names(pieces)|
    decreases |pieces|
  {
    assert pieces[..|pieces|] == pieces;
    if i < |pieces| {
      NamesGrow(pieces[..|pieces| - 1], i);
      assert pieces[..|pieces| - 1][..i] == pieces[..i];
    }
  }

  lemma NamesNext(pieces: seq<string>, i: nat)
    requires i < |pieces|
    ensures Names(pieces[..i + 1]) == Names(pieces[..i]) + Named(pieces[i])
    ensures |Names(pieces[..i + 1])| <= |Names(pieces)|
  {
    assert pieces[..i + 1][..i] == pieces[..i];
    NamesGrow(pieces, i + 1);
  }

  lemma {:induction false} NamesArePath(pieces: seq<string>)
    requires forall i :: 0 <= i < |pieces| ==> NoSlash(pieces[i])
    ensures Walkable(pieces) ==> IsPath(Names(pieces))
  {
    if |pieces| > 0 {
      NamesGrow(pieces, |pieces| - 1);
      NamesArePath(pieces[..|pieces| - 1]);
    }
  }

  predicate Walkable(pieces: seq<string>) {
    (forall i :: 0 <= i < |pieces| ==> !IsParent(pieces[i])) && |Names(pieces)| <= MAX_ARCHIVE_PATH_DEPTH
  }

  predicate Absolute(text: string) { |text| > 0 && text[0] == '/' }

  predicate Safe(text: string) {
    && |text| <= MAX_ARCHIVE_PATH_BYTES
    && !Absolute(text) && Walkable(Split(text))
  }

  function ReadPath(text: string): Option<Path> { if Safe(text) then Some(Names(Split(text))) else None }

  /** `validate_entry_path`: a safe path stays below where it is joined. */
  method ValidateEntryPath(text: string) returns (r: Option<Path>)
    ensures r == ReadPath(text) && (r.Some? ==> IsPath(r.value))
  {
    if |text| > MAX_ARCHIVE_PATH_BYTES { return None; }
    if Absolute(text) { return None; }
    r := Collect(Split(text));
    NamesArePath(Split(text));
  }

  method Collect(pieces: seq<string>) returns (r: Option<Path>)
    ensures r == if Walkable(pieces) then Some(Names(pieces)) else None
  {
    var clean: Path := [];
    for i := 0 to |pieces|
      invariant clean == Names(pieces[..i])
      invariant |clean| <= MAX_ARCHIVE_PATH_DEPTH && forall k :: 0 <= k < i ==> !IsParent(pieces[k])
    {
      if IsParent(pieces[i]) { return None; }
      NamesNext(pieces, i);
      if !IsCurrent(pieces[i]) {
        if |clean| == MAX_ARCHIVE_PATH_DEPTH { return None; }
        clean := clean + [pieces[i]];
      }
    }
    assert pieces[..|pieces|] == pieces;
    r := Some(clean);
  }

  lemma FirstSlashAt(a: string, b: string)
    requires NoSlash(a)
    ensures FirstSlash(a) == |a| && FirstSlash(a + "/" + b) == |a|
  {
    var text := a + "/" + b;
    assert text[|a|] == '/';
    assert forall i :: 0 <= i < |a| ==> text[i] == a[i];
  }

  lemma SplitFirst(a: string, b: string)
    requires NoSlash(a)
    ensures Split(a) == [a] && Split(a + "/" + b) == [a] + Split(b)
  {
    FirstSlashAt(a, b);
    var text := a + "/" + b;
    assert text[..|a|] == a && text[|a| + 1..] == b;
  }

  predicate ArePieces(pieces: seq<string>) { |pieces| > 0 && forall i :: 0 <= i < |pieces| ==> NoSlash(pieces[i]) }

  lemma {:induction false} SplitJoin(p: seq<string>)
    requires ArePieces(p)
    ensures Split(Join(p)) == p
  {
    SplitFirst(p[0], Join(p[1..]));
    if |p| > 1 { SplitJoin(p[1..]); }
  }

  lemma {:induction false} NamesOfPath(p: Path)
    requires IsPath(p)
    ensures Names(p) == p
  {
    if |p| > 0 { NamesOfPath(p[..|p| - 1]); }
  }

  lemma JoinIsRelative(p: Path)
    requires IsPath(p)
    ensures !Absolute(Join(p))
  {
    if |p| > 0 { assert Join(p)[0] == p[0][0]; }
  }

  lemma JoinSplits(p: Path)
    requires |p| > 0 && IsPath(p)
    ensures Split(Join(p)) == p && Names(Split(Join(p))) == p
  {
    SplitJoin(p);
    NamesOfPath(p);
  }

  lemma ReadsAsSplit(text: string, p: Path)
    requires Split(text) == p == Names(p) && IsPath(p) && !Absolute(text)
    ensures
      ReadPath(text) ==
      if |text| <= MAX_ARCHIVE_PATH_BYTES && |p| <= MAX_ARCHIVE_PATH_DEPTH then Some(p) else None
  {
    assert Walkable(p) <==> |p| <= MAX_ARCHIVE_PATH_DEPTH;
  }

  lemma NothingJoinsToNothing()
    ensures ReadPath(Join([])) == Some([])
  {
    assert Split("") == [""] && [""][..0] == [];
  }

  /** Writing a path out and reading it back is the identity, within the limits. */
  lemma JoinedPathReadsBack(p: Path)
    requires IsPath(p)
    ensures
      ReadPath(Join(p)) ==
      if |Join(p)| <= MAX_ARCHIVE_PATH_BYTES && |p| <= MAX_ARCHIVE_PATH_DEPTH then Some(p) else None
  {
    JoinIsRelative(p);
    if p == [] {
      NothingJoinsToNothing();
    } else {
      JoinSplits(p);
      ReadsAsSplit(Join(p), p);
    }
  }

  /** The pieces other than the dropped ones, in order. */
  function Without(pieces: seq<string>, dropped: set<string>): seq<string> {
    if |pieces| == 0 then []
    else (if pieces[0] in dropped then [] else [pieces[0]]) + Without(pieces[1..], dropped)
  }

  lemma {:induction false} WithoutLast(pieces: seq<string>, dropped: set<string>)
    requires |pieces| > 0
    ensures
      Without(pieces, dropped) ==
        Without(pieces[..|pieces| - 1], dropped) +
        if pieces[|pieces| - 1] in dropped then [] else [pieces[|pieces| - 1]]
  {
    if |pieces| > 1 {
      WithoutLast(pieces[1..], dropped);
      assert pieces[1..][..|pieces| - 2] == pieces[..|pieces| - 1][1..];
    }
  }

  lemma {:induction false} NamesAreOthers(pieces: seq<string>)
    ensures Names(pieces) == Without(pieces, {"", "."})
  {
    if |pieces| > 0 {
      NamesAreOthers(pieces[..|pieces| - 1]);
      WithoutLast(pieces, {"", "."});
    }
  }

  lemma {:induction false} SplitRejoins(text: string)
    ensures ArePieces(Split(text)) && Join(Split(text)) == text
  {
    var i := FirstSlash(text);
    if i < |text| {
      SplitRejoins(text[i + 1..]);
      assert text == text[..i] + "/" + text[i + 1..];
    }
  }

  lemma AbsoluteIs(pieces: seq<string>)
    requires ArePieces(pieces)
    ensures Absolute(Join(pieces)) <==> |pieces| > 1 && pieces[0] == ""
  {
    if |pieces| > 1 { assert Join(pieces) == pieces[0] + "/" + Join(pieces[1..]); }
  }

  /** Every text is the join of its pieces between slashes, and read by them: no step up, nothing before the
      first slash means absolute, and empty pieces and single dots do not count. */
  lemma ReadsExactly(text: string)
    ensures ArePieces(Split(text)) && Join(Split(text)) == text
    ensures
      var pieces := Split(text);
      ReadPath(text) ==
        if |text| <= 4096 && ".." !in pieces && !(|pieces| > 1 && pieces[0] == "")
            && |Without(pieces, {"", "."})| <= 64
          then Some(Without(pieces, {"", "."}))
        else None
  {
    var pieces := Split(text);
    SplitRejoins(text);
    NamesAreOthers(pieces);
    AbsoluteIs(pieces);
    assert ".." in pieces <==> exists i :: 0 <= i < |pieces| && IsParent(pieces[i]);
  }

  lemma SplitsApart(pieces: seq<string>, text: string)
    requires ArePieces(pieces)
    ensures Join(pieces) == text <==> Split(text) == pieces
  {
    SplitJoin(pieces);
    SplitRejoins(text);
  }

  lemma JoinInjective(p: Path, q: Path)
    requires IsPath(p) && IsPath(q) && Join(p) == Join(q)
    ensures p == q
  {
    if |p| > 0 { SplitJoin(p); }
    if |q| > 0 { SplitJoin(q); }
  }
}
