/** `parse_edl`: the clip-name tokens of an EDL, read line by line, filtered by a
    pattern and de-duplicated in order of first appearance. The file is given as
    the sequence of lines that iterating over it yields (each may keep its line
    terminator); the pattern as the predicate `re.match(pattern, token)` is. */
module EdlScan {
  import opened Wrappers
  import opened PyStrings
  import opened Sequences

  const Marker := "* FROM CLIP NAME:"
  const Separator := ": "

  /** The failure of `line.split(': ')[1]` on a marker line without `': '`
      (IndexError); `line` is its index in the file. */
  datatype ScanError = MissingSeparator(line: nat)

  /** A line that carries the clip-name marker at its very start. */
  predicate IsClipLine(line: string) {
    StartsWith(line, Marker)
  }

  /** `line.split(': ')[1].strip()`, or None when `line` holds no `': '`. */
  function ClipInfo(line: string): (r: Option<string>)
    ensures r.None? <==> !Contains(line, Separator)
  {
    match SecondField(line, Separator)
    case None => None
    case Some(field) => Some(Strip(field))
  }

  /** `ClipInfo` is `line.split(': ')[1].strip()`: the second `': '`-separated
      part of the line with its outer white space removed. */
  lemma ClipInfoIsStrippedSecondPart(line: string)
    ensures ClipInfo(line).Some? <==> |Split(line, Separator)| >= 2
    ensures ClipInfo(line).Some? ==> ClipInfo(line).value == Strip(Split(line, Separator)[1])
  {
    SecondFieldIsSplit(line, Separator);
  }

  /** A marker line on which the scan raises. */
  predicate Unsplittable(line: string) {
    IsClipLine(line) && !Contains(line, Separator)
  }

  /** Line `n` is the first line of `lines` on which the scan raises. */
  predicate FirstUnsplittable(lines: seq<string>, n: nat) {
    n < |lines| && Unsplittable(lines[n]) && forall j :: 0 <= j < n ==> !Unsplittable(lines[j])
  }

  /** The token a line contributes: the stripped second field of a marker line,
      when `matches` accepts it. */
  function LineToken(line: string, matches: string -> bool): (r: Option<string>)
    ensures r.Some? <==> IsClipLine(line) && ClipInfo(line).Some? && matches(ClipInfo(line).value)
    ensures r.Some? ==> r == ClipInfo(line)
  {
    if !IsClipLine(line) then None
    else match ClipInfo(line)
      case None => None
      case Some(token) => if matches(token) then Some(token) else None
  }

  predicate Qualifies(line: string, matches: string -> bool, token: string) {
    LineToken(line, matches) == Some(token)
  }

  /** The qualifying tokens of `lines`, one per qualifying line, in file order,
      repetitions kept. */
  function Qualifying(lines: seq<string>, matches: string -> bool): seq<string>
  {
    FilterMap(lines, line => LineToken(line, matches))
  }

  /** `parse_edl(file, pattern)`: the de-duplicated qualifying tokens, or the error
      of the first marker line that has no `': '`. */
  method ParseEdl(lines: seq<string>, matches: string -> bool) returns (r: Result<seq<string>, ScanError>)
    ensures r.Err? <==> exists i :: 0 <= i < |lines| && Unsplittable(lines[i])
    ensures r.Err? ==> FirstUnsplittable(lines, r.error.line)
    ensures r.Ok? ==> r.value == Dedup(Qualifying(lines, matches))
  {
    var files: seq<string> := [];
    var i := 0;
    while i < |lines|
      invariant 0 <= i <= |lines|
      invariant forall j :: 0 <= j < i ==> !Unsplittable(lines[j])
      invariant files == Dedup(Qualifying(lines[..i], matches))
    {
      var line := lines[i];
      if StartsWith(line, Marker) {
        var field := SecondField(line, Separator);
        if field.None? {
          return Err(MissingSeparator(i));
        }
        var clipInfo := Strip(field.value);
        ScanStep(lines, matches, i, files);
        if matches(clipInfo) && clipInfo !in files {
          files := files + [clipInfo];
        }
      } else {
        ScanStep(lines, matches, i, files);
      }
      i := i + 1;
    }
    assert lines[..i] == lines;
    return Ok(files);
  }

  /** The loop step of `ParseEdl`: how one more line changes the de-duplicated tokens. */
  lemma ScanStep(lines: seq<string>, matches: string -> bool, i: nat, files: seq<string>)
    requires i < |lines| && files == Dedup(Qualifying(lines[..i], matches))
    requires forall j :: 0 <= j < i ==> !Unsplittable(lines[j])
    requires !Unsplittable(lines[i])
    ensures forall j :: 0 <= j < i + 1 ==> !Unsplittable(lines[j])
    ensures !IsClipLine(lines[i]) ==> Dedup(Qualifying(lines[..i + 1], matches)) == files
    ensures IsClipLine(lines[i]) ==>
              SecondField(lines[i], Separator).Some? &&
              var token := Strip(SecondField(lines[i], Separator).value);
              Dedup(Qualifying(lines[..i + 1], matches)) ==
              if matches(token) && token !in files then files + [token] else files
  {
    QualifyingStep(lines, matches, i);
    match LineToken(lines[i], matches)
    case None =>
    case Some(token) =>
      DedupAppend(Qualifying(lines[..i], matches), token);
  }

  /** One more line adds its token, if it has one, to the qualifying tokens. */
  lemma QualifyingStep(lines: seq<string>, matches: string -> bool, i: nat)
    requires i < |lines|
    ensures Qualifying(lines[..i + 1], matches) ==
            match LineToken(lines[i], matches)
            case None => Qualifying(lines[..i], matches)
            case Some(token) => Qualifying(lines[..i], matches) + [token]
  {
    assert lines[..i + 1][..i] == lines[..i];
    assert lines[..i + 1][i] == lines[i];
  }

  /** What a successful scan returns: each token of a qualifying line, once, in the
      order of first appearance, and no other string; never more tokens than lines. */
  lemma ParseEdlResult(lines: seq<string>, matches: string -> bool)
    ensures NoDuplicates(Dedup(Qualifying(lines, matches)))
    ensures forall token :: token in Dedup(Qualifying(lines, matches)) ==> token in Qualifying(lines, matches)
    ensures forall token :: token in Dedup(Qualifying(lines, matches)) <==>
              exists i :: 0 <= i < |lines| && Qualifies(lines[i], matches, token)
    ensures |Dedup(Qualifying(lines, matches))| <= |lines|
    ensures forall i, j :: 0 <= i < j < |Dedup(Qualifying(lines, matches))| ==>
              IndexOf(Qualifying(lines, matches), Dedup(Qualifying(lines, matches))[i])
              < IndexOf(Qualifying(lines, matches), Dedup(Qualifying(lines, matches))[j])
  {
    var q := Qualifying(lines, matches);
    DedupContents(q);
    DedupFirstOccurrenceOrder(q);
    forall token
      ensures token in Dedup(q) <==> exists i :: 0 <= i < |lines| && Qualifies(lines[i], matches, token)
    {
      FilterMapMembers(lines, line => LineToken(line, matches), token);
    }
    FilterMapMembers(lines, line => LineToken(line, matches), "");
  }
}
