/** Worked cases of the viewer's pipeline, on concrete names and lines. Each
    lemma takes its string as a parameter fixed by its precondition. */
module EdlExamples {
  import opened Wrappers
  import opened PyStrings
  import opened Sequences
  import opened EdlScan
  import opened Clips
  import opened EdlViewer

  /** s01e10_006-x.wav: season "s01", episode "e010", shot "0006". */
  lemma ParseConventionalName(n: string)
    requires n == "s01e10_006-x.wav"
    ensures FromFile(n) == Ok(Clip(name := n, shot := "0006", episode := "e010", season := "s01"))
  {
    ConventionalNameParts(n);
    FromFileFields(n);
  }

  lemma ConventionalNameParts(n: string)
    requires n == "s01e10_006-x.wav"
    ensures ConventionMatch(n)
    ensures "0" + n[7..10] == "0006" && "e0" + n[4..6] == "e010" && "s" + n[1..3] == "s01"
  {
    assert n[7..10] == "006" && n[4..6] == "10" && n[1..3] == "01";
  }

  /** ss01e10_006-x.wav passes the scan pattern, which allows repeated letters,
      and then fails in `from_file`. */
  lemma RepeatedLetterPassesScanOnly(n: string)
    requires n == "ss01e10_006-x.wav"
    ensures ScanMatch(n)
    ensures FromFile(n).Err?
  {
    assert PatternSplit(n, 2, 5, 8, 13);
    PatternSplitMatches(n, 2, 5, 8, 13);
    FromFileSucceeds(n);
  }

  /** intro_music.wav does not pass the scan pattern. */
  lemma OtherNameIsNotScanned(n: string)
    requires n == "intro_music.wav"
    ensures !ScanMatch(n)
  {
    assert RunEnd(n, 0, 's') == 0;
  }

  /** The line `* FROM CLIP NAME: s01e10_006-room_tone.wav` with its newline
      yields the token `s01e10_006-room_tone.wav`. */
  lemma ExampleLineToken(line: string, token: string)
    requires token == "s01e10_006-room_tone.wav"
    requires line == Marker + " " + token + "\n"
    ensures LineToken(line, ScanMatch) == Some(token)
  {
    assert line[..|Marker|] == Marker;
    ExampleSecondField(line, token);
    ExampleStrip(token);
    ExampleScan(token);
  }

  lemma ExampleSecondField(line: string, token: string)
    requires token == "s01e10_006-room_tone.wav"
    requires line == Marker + " " + token + "\n"
    ensures SecondField(line, Separator) == Some(token + "\n")
  {
    assert line[16..18] == Separator;
    forall k: nat | k < 16
      ensures !OccursAt(line, Separator, k)
    {
      assert line[k] == Marker[k];
      assert Marker[k] != ':';
    }
    FindFromFirst(line, Separator, 0, 16);
    forall k: nat | 18 <= k
      ensures !OccursAt(line, Separator, k)
    {
      if k + 2 <= |line| {
        assert line[k] == token[k - 18];
        assert token[k - 18] != ':';
      }
    }
    FindFromNone(line, Separator, 18);
    assert line[18..|line|] == token + "\n";
  }

  lemma ExampleStrip(token: string)
    requires token == "s01e10_006-room_tone.wav"
    ensures Strip(token + "\n") == token
  {
    var t := token + "\n";
    assert !IsSpace(t[0]) && IsSpace(t[|t| - 1]);
    assert t[..|t| - 1] == token;
    assert !IsSpace(token[0]) && !IsSpace(token[|token| - 1]);
  }

  lemma ExampleScan(token: string)
    requires token == "s01e10_006-room_tone.wav"
    ensures ScanMatch(token)
  {
    assert RunOf(token, 0, 1, 's') && RunOf(token, 3, 4, 'e') && RunOf(token, 6, 7, '_');
    assert DigitsAt(token, 1, 2) && DigitsAt(token, 4, 2) && DigitsAt(token, 7, 3);
    assert WavAt(token, 20) && NoNewline(token, 11, 20);
    assert PatternSplit(token, 1, 4, 7, 20);
    PatternSplitMatches(token, 1, 4, 7, 20);
  }

  lemma {:induction false} FindFromFirst(s: string, sep: string, from: nat, k: nat)
    requires from <= k && OccursAt(s, sep, k)
    requires forall j: nat :: from <= j < k ==> !OccursAt(s, sep, j)
    decreases k - from
    ensures FindFrom(s, sep, from) == Some(k)
  {
    if from < k { FindFromFirst(s, sep, from + 1, k); }
  }

  lemma {:induction false} FindFromNone(s: string, sep: string, from: nat)
    requires forall j: nat :: from <= j ==> !OccursAt(s, sep, j)
    decreases |s| - from
    ensures FindFrom(s, sep, from).None?
  {
    if from + |sep| <= |s| { FindFromNone(s, sep, from + 1); }
  }

  /** A log naming one clip three times yields that clip once. */
  lemma RepeatedLineYieldsOneToken(line: string, token: string)
    requires token == "s01e10_006-room_tone.wav"
    requires line == Marker + " " + token + "\n"
    ensures Dedup(Qualifying([line, line, line], ScanMatch)) == [token]
  {
    ExampleLineToken(line, token);
    ThreeEqualLines(line, token);
    ThreeEqualTokens(token);
  }

  lemma ThreeEqualLines(line: string, token: string)
    requires LineToken(line, ScanMatch) == Some(token)
    ensures Qualifying([line, line, line], ScanMatch) == [token, token, token]
  {
    ThreeEqualValues([line, line, line], l => LineToken(l, ScanMatch), token);
  }

  lemma ThreeEqualValues<T, U>(s: seq<T>, f: T -> Option<U>, y: U)
    requires |s| == 3 && s[0] == s[1] == s[2] && f(s[0]) == Some(y)
    ensures FilterMap(s, f) == [y, y, y]
  {
    assert s[..2][..1][..0] == [];
    assert FilterMap(s[..2][..1], f) == [y];
    assert FilterMap(s[..2], f) == [y, y];
  }

  lemma ThreeEqualTokens(token: string)
    ensures Dedup([token, token, token]) == [token]
  {
    assert [token][..0] == [];
    assert Dedup([token]) == [token];
    assert [token, token][..1] == [token];
    assert Dedup([token, token]) == [token];
    assert [token, token, token][..2] == [token, token];
  }
}
