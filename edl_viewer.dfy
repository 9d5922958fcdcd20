/** The EDL viewer's loading step, `_update_file`: scan the EDL with the clip-name
    pattern of the application, parse every token into a `Clip` and hand the
    clips to the table model. The pattern is recognised by hand. */
module EdlViewer {
  import opened Wrappers
  import opened PyStrings
  import opened Sequences
  import opened EdlScan
  import opened Clips
  import Table

  /** Every character of `s[i..j]` is `c`. */
  predicate RunOf(s: string, i: nat, j: nat, c: char)
    requires i <= j <= |s|
  {
    forall k :: i <= k < j ==> s[k] == c
  }

  /** The end of the run of the character `c` that starts at `i`. */
  function RunEnd(s: string, i: nat, c: char): (j: nat)
    requires i <= |s|
    decreases |s| - i
    ensures i <= j <= |s| && RunOf(s, i, j, c) && (j == |s| || s[j] != c)
  {
    if i < |s| && s[i] == c then RunEnd(s, i + 1, c) else i
  }

  /** `s[i..i + n]` is `n` characters of `[0-9]`. */
  predicate DigitsAt(s: string, i: nat, n: nat) {
    i + n <= |s| && forall k :: i <= k < i + n ==> IsDigit(s[k])
  }

  /** `.+\.wav` matches from `d` on: some characters other than a newline, at
      least one, then ".wav". */
  predicate WavAfter(s: string, d: nat) {
    exists m :: d < m <= |s| - 4 && WavAt(s, m) && NoNewline(s, d, m)
  }

  /** `s[m..m + 4]` is ".wav". */
  predicate WavAt(s: string, m: nat) {
    m + 4 <= |s| && s[m..m + 4] == ".wav"
  }

  /** `s[d..m]` has no newline, so `.` matches each of its characters. */
  predicate NoNewline(s: string, d: nat, m: nat)
    requires d <= m <= |s|
  {
    forall k :: d <= k < m ==> s[k] != '\n'
  }

  /** `re.match(r"s+[0-9]{2}e+[0-9]{2}_+[0-9]{3}-.+\.wav", s)` succeeds: the
      clip-name pattern of the viewer, matched from the start of `s` and with
      anything allowed after the match. Each run of repeated letters is taken
      whole, since a digit must follow it. */
  predicate ScanMatch(s: string)
    ensures ScanMatch(s) ==> |s| >= 16 && s[0] == 's'
  {
    var a := RunEnd(s, 0, 's');
    a > 0 && DigitsAt(s, a, 2) &&
    var b := RunEnd(s, a + 2, 'e');
    b > a + 2 && DigitsAt(s, b, 2) &&
    var c := RunEnd(s, b + 2, '_');
    c > b + 2 && DigitsAt(s, c, 3) && c + 3 < |s| && s[c + 3] == '-' && WavAfter(s, c + 4)
  }

  /** The pattern, read part by part: `s[..a]` is `s+`, `s[a..a+2]` is
      `[0-9]{2}`, `s[a+2..b]` is `e+`, `s[b..b+2]` is `[0-9]{2}`, `s[b+2..c]` is
      `_+`, `s[c..c+3]` is `[0-9]{3}`, `s[c+3]` is `-`, `s[c+4..m]` is `.+` and
      `s[m..m+4]` is `\.wav`. */
  ghost predicate PatternSplit(s: string, a: nat, b: nat, c: nat, m: nat) {
    && 1 <= a && DigitsAt(s, a, 2) && RunOf(s, 0, a, 's')
    && a + 2 < b && DigitsAt(s, b, 2) && RunOf(s, a + 2, b, 'e')
    && b + 2 < c && DigitsAt(s, c, 3) && RunOf(s, b + 2, c, '_')
    && c + 4 < m && WavAt(s, m) && s[c + 3] == '-' && NoNewline(s, c + 4, m)
  }

  lemma {:induction false} RunEndExact(s: string, i: nat, j: nat, c: char)
    requires i <= j <= |s|
    requires RunOf(s, i, j, c)
    requires j == |s| || s[j] != c
    decreases j - i
    ensures RunEnd(s, i, c) == j
  {
    if i < j { RunEndExact(s, i + 1, j, c); }
  }

  /** The recogniser accepts exactly the strings that some reading of the pattern
      matches. */
  lemma {:induction false} ScanMatchIsPattern(s: string)
    ensures ScanMatch(s) <==> exists a: nat, b: nat, c: nat, m: nat :: PatternSplit(s, a, b, c, m)
  {
    if ScanMatch(s) {
      ScanMatchSplits(s);
    }
    if exists a: nat, b: nat, c: nat, m: nat :: PatternSplit(s, a, b, c, m) {
      var a: nat, b: nat, c: nat, m: nat :| PatternSplit(s, a, b, c, m);
      PatternSplitMatches(s, a, b, c, m);
    }
  }

  lemma {:induction false} ScanMatchSplits(s: string)
    requires ScanMatch(s)
    ensures PatternSplit(s, RunEnd(s, 0, 's'), RunEnd(s, RunEnd(s, 0, 's') + 2, 'e'),
                         RunEnd(s, RunEnd(s, RunEnd(s, 0, 's') + 2, 'e') + 2, '_'), ScanMatchWavAt(s))
  {
  }

  /** Where the recogniser finds ".wav". */
  ghost function ScanMatchWavAt(s: string): nat
    requires ScanMatch(s)
  {
    var a := RunEnd(s, 0, 's');
    var b := RunEnd(s, a + 2, 'e');
    var c := RunEnd(s, b + 2, '_');
    var m :| c + 4 < m <= |s| - 4 && WavAt(s, m) && NoNewline(s, c + 4, m);
    m
  }

  lemma {:induction false} PatternSplitMatches(s: string, a: nat, b: nat, c: nat, m: nat)
    requires PatternSplit(s, a, b, c, m)
    ensures ScanMatch(s)
  {
    RunEndExact(s, 0, a, 's');
    RunEndExact(s, a + 2, b, 'e');
    RunEndExact(s, b + 2, c, '_');
    assert WavAfter(s, c + 4);
  }

  /** Of the names the scan pattern accepts, `from_file` parses exactly those with
      a single 's', 'e' and '_': the pattern allows runs of each, the parser does not. */
  lemma ScanAcceptedNamesThatParse(t: string)
    requires ScanMatch(t)
    ensures |t| >= 16
    ensures FromFile(t).Ok? <==> t[1] != 's' && t[4] != 'e' && t[7] != '_'
  {
    FromFileSucceeds(t);
    var a := RunEnd(t, 0, 's');
    var b := RunEnd(t, a + 2, 'e');
    var c := RunEnd(t, b + 2, '_');
    if a == 1 && b == 4 && c == 7 {
      assert ConventionMatch(t);
    } else if a > 1 {
      assert t[1] == 's';
    } else if b > 4 {
      assert t[4] == 'e';
    } else {
      assert t[7] == '_';
    }
  }

  /** `[Clip.from_file(f) for f in files]`: every name parsed, in order; the first
      name that does not parse raises, and no list is built. */
  function FromFiles(files: seq<string>): (r: Result<seq<Clip>, ParseError>)
    ensures r.Ok? <==> forall i :: 0 <= i < |files| ==> FromFile(files[i]).Ok?
    ensures r.Ok? ==> |r.value| == |files| && forall i :: 0 <= i < |files| ==> r.value[i] == FromFile(files[i]).value
    ensures r.Err? ==> exists i :: 0 <= i < |files| && FromFile(files[i]) == Err(r.error)
                                   && forall j :: 0 <= j < i ==> FromFile(files[j]).Ok?
  {
    MapAllResult(files, FromFile);
    MapAll(files, FromFile)
  }

  /** What can stop loading: the scan raising, or a token that does not parse. */
  datatype LoadError = ScanFailed(scan: ScanError) | ParseFailed(parse: ParseError)

  /** The tokens the viewer's scan keeps from an EDL that scans without error. */
  function Tokens(lines: seq<string>): seq<string>
  {
    Dedup(Qualifying(lines, ScanMatch))
  }

  /** Lines 250-252 of `_update_file`: scan with the clip-name pattern, then build
      one clip per token. The clips are the parsed tokens in scan order: each
      well formed, named by its token, no two with the same name. */
  method LoadClips(lines: seq<string>) returns (r: Result<seq<Clip>, LoadError>)
    ensures (exists i :: 0 <= i < |lines| && Unsplittable(lines[i])) <==> r.Err? && r.error.ScanFailed?
    ensures r.Err? && r.error.ScanFailed? ==> FirstUnsplittable(lines, r.error.scan.line)
    ensures (forall i :: 0 <= i < |lines| ==> !Unsplittable(lines[i])) ==>
              r == match FromFiles(Tokens(lines)) case Ok(clips) => Ok(clips) case Err(e) => Err(ParseFailed(e))
    ensures r.Ok? ==> |r.value| == |Tokens(lines)| <= |lines|
    ensures r.Ok? ==> forall i :: 0 <= i < |r.value| ==> WellFormed(r.value[i]) && r.value[i].name == Tokens(lines)[i]
    ensures r.Ok? ==> forall i, j :: 0 <= i < j < |r.value| ==> r.value[i].name != r.value[j].name
  {
    var scanned := ParseEdl(lines, ScanMatch);
    match scanned
    case Err(e) =>
      return Err(ScanFailed(e));
    case Ok(files) =>
      ParseEdlResult(lines, ScanMatch);
      match FromFiles(files)
      case Err(e) =>
        return Err(ParseFailed(e));
      case Ok(clips) =>
        return Ok(clips);
  }

  /** `_update_file`: load the clips of the selected EDL and show them. It shows
      them exactly when neither the scan nor a `from_file` call raises; when one
      raises, the exception leaves before `populate_table`, so the table keeps the
      clips it had. */
  method UpdateFile(table: Table.TableModel, lines: seq<string>) returns (r: Result<(), LoadError>)
    modifies table
    ensures table.headerLabels == old(table.headerLabels)
    ensures (exists i :: 0 <= i < |lines| && Unsplittable(lines[i])) <==> r.Err? && r.error.ScanFailed?
    ensures r.Err? && r.error.ScanFailed? ==> FirstUnsplittable(lines, r.error.scan.line)
    ensures (forall i :: 0 <= i < |lines| ==> !Unsplittable(lines[i])) ==>
              match FromFiles(Tokens(lines))
              case Ok(clips) => r.Ok? && table.rows == clips
              case Err(e) => r == Err(ParseFailed(e))
    ensures r.Err? ==> table.rows == old(table.rows)
    ensures r.Ok? ==> |table.rows| == |Tokens(lines)|
                      && forall i :: 0 <= i < |table.rows| ==> FromFile(Tokens(lines)[i]) == Ok(table.rows[i])
  {
    var loaded := LoadClips(lines);
    match loaded
    case Err(e) =>
      return Err(e);
    case Ok(clips) =>
      table.UpdateData(clips);
      return Ok(());
  }
}
