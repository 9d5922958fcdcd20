/** `Clip`: one editorial clip, parsed from its file name by `from_file`, and the
    ordered attribute view `get_attributes` gives of it. */
module Clips {
  import opened Wrappers
  import opened PyStrings

  /** The fields in the order `__init__` assigns them. */
  datatype Clip = Clip(name: string, shot: string, episode: string, season: string)

  /** `from_file` on a name whose prefix does not follow the convention: the code
      calls `.groups()` on the None that `re.match` returns (AttributeError). */
  datatype ParseError = NoConventionMatch(fileName: string)

  /** `re.match(r's(\d{2})e(\d{2})_(\d{3})', p)` succeeds: `p` starts with 's', two
      digits, 'e', two digits, '_', three digits. */
  predicate ConventionMatch(p: string)
    ensures ConventionMatch(p) ==> |p| >= 10 && AllDigits(p[1..3]) && AllDigits(p[4..6]) && AllDigits(p[7..10])
  {
    && |p| >= 10
    && p[0] == 's' && IsDigit(p[1]) && IsDigit(p[2])
    && p[3] == 'e' && IsDigit(p[4]) && IsDigit(p[5])
    && p[6] == '_' && IsDigit(p[7]) && IsDigit(p[8]) && IsDigit(p[9])
  }

  /** The shape every parsed clip has: season 's' + 2 digits, episode 'e' + 3
      digits, shot 4 digits. */
  predicate WellFormed(c: Clip) {
    && |c.season| == 3 && c.season[0] == 's' && AllDigits(c.season[1..])
    && |c.episode| == 4 && c.episode[0] == 'e' && AllDigits(c.episode[1..])
    && |c.shot| == 4 && AllDigits(c.shot)
  }

  /** `Clip.from_file(fileName)`: cut the name at its first '-', match the
      convention on the part before it, and zero-fill the three numbers. */
  function FromFile(fileName: string): (r: Result<Clip, ParseError>)
    ensures r.Err? ==> r.error == NoConventionMatch(fileName)
    ensures r.Ok? ==> r.value.name == fileName && WellFormed(r.value)
  {
    // `split('-', 1)[0]` is the same part as `split('-')[0]`
    var prefix := Split(fileName, "-")[0];
    if ConventionMatch(prefix) then
      var season, episode, shot := prefix[1..3], prefix[4..6], prefix[7..10];
      PaddedFieldsWellFormed(fileName, prefix);
      Ok(Clip(name := fileName,
              shot := ZFill(shot, 4),
              episode := "e" + ZFill(episode, 3),
              season := "s" + ZFill(season, 2)))
    else
      Err(NoConventionMatch(fileName))
  }

  lemma PaddedFieldsWellFormed(fileName: string, prefix: string)
    requires ConventionMatch(prefix)
    ensures WellFormed(Clip(name := fileName,
                            shot := ZFill(prefix[7..10], 4),
                            episode := "e" + ZFill(prefix[4..6], 3),
                            season := "s" + ZFill(prefix[1..3], 2)))
  {
    var season, episode, shot := prefix[1..3], prefix[4..6], prefix[7..10];
    ZFillKeepsValue(season, 2);
    ZFillKeepsValue(episode, 3);
    ZFillKeepsValue(shot, 4);
    assert ("s" + ZFill(season, 2))[1..] == ZFill(season, 2);
    assert ("e" + ZFill(episode, 3))[1..] == ZFill(episode, 3);
  }

  /** Cutting at the first '-' never matters: `from_file` succeeds exactly when the
      name itself starts with the convention. */
  lemma FromFileSucceeds(fileName: string)
    ensures FromFile(fileName).Ok? <==> ConventionMatch(fileName)
  {
    var prefix := Split(fileName, "-")[0];
    SplitHead(fileName, "-");
    assert fileName[..|prefix|] == prefix;
  }

  /** The fields `from_file` builds from a conventional name sD1D2eD3D4_D5D6D7...:
      season "s" D1D2, episode "e0" D3D4, shot "0" D5D6D7, the name unchanged. */
  lemma FromFileFields(fileName: string)
    requires ConventionMatch(fileName)
    ensures FromFile(fileName) == Ok(Clip(name := fileName,
                                          shot := "0" + fileName[7..10],
                                          episode := "e0" + fileName[4..6],
                                          season := "s" + fileName[1..3]))
  {
    FromFileSucceeds(fileName);
    var prefix := Split(fileName, "-")[0];
    SplitHead(fileName, "-");
    assert fileName[..|prefix|] == prefix;
    var season, episode, shot := fileName[1..3], fileName[4..6], fileName[7..10];
    assert prefix[1..3] == season && prefix[4..6] == episode && prefix[7..10] == shot;
    assert Zeros(1) == "0";
    assert ZFill(season, 2) == season;
    assert ZFill(episode, 3) == "0" + episode by { assert episode[0] != '+' && episode[0] != '-'; }
    assert ZFill(shot, 4) == "0" + shot by { assert shot[0] != '+' && shot[0] != '-'; }
    assert "e" + ("0" + episode) == "e0" + episode;
  }

  /** Zero-filling keeps the numbers: each field of a parsed clip denotes the
      number the name had in its place. */
  lemma FromFileKeepsNumbers(fileName: string)
    requires FromFile(fileName).Ok?
    ensures AllDigits(fileName[1..3]) && AllDigits(fileName[4..6]) && AllDigits(fileName[7..10])
    ensures DigitsValue(FromFile(fileName).value.season[1..]) == DigitsValue(fileName[1..3])
    ensures DigitsValue(FromFile(fileName).value.episode[1..]) == DigitsValue(fileName[4..6])
    ensures DigitsValue(FromFile(fileName).value.shot) == DigitsValue(fileName[7..10])
  {
    FromFileSucceeds(fileName);
    FromFileFields(fileName);
    var c := FromFile(fileName).value;
    assert c.season[1..] == fileName[1..3];
    assert c.episode[1..] == Zeros(1) + fileName[4..6];
    assert c.shot == Zeros(1) + fileName[7..10];
    ZerosPrefixKeepsValue(1, fileName[4..6]);
    ZerosPrefixKeepsValue(1, fileName[7..10]);
  }

  /** The sort key of each field: on parsed clips, comparing two seasons, episodes
      or shots as strings compares their numbers. */
  lemma FieldOrderIsNumeric(a: Clip, b: Clip)
    requires WellFormed(a) && WellFormed(b)
    ensures StrLt(a.season, b.season) <==> DigitsValue(a.season[1..]) < DigitsValue(b.season[1..])
    ensures StrLt(a.episode, b.episode) <==> DigitsValue(a.episode[1..]) < DigitsValue(b.episode[1..])
    ensures StrLt(a.shot, b.shot) <==> DigitsValue(a.shot) < DigitsValue(b.shot)
  {
    assert a.season == ['s'] + a.season[1..] && b.season == ['s'] + b.season[1..];
    StrLtCommonHead('s', a.season[1..], b.season[1..]);
    DigitStringOrder(a.season[1..], b.season[1..]);
    assert a.episode == ['e'] + a.episode[1..] && b.episode == ['e'] + b.episode[1..];
    StrLtCommonHead('e', a.episode[1..], b.episode[1..]);
    DigitStringOrder(a.episode[1..], b.episode[1..]);
    DigitStringOrder(a.shot, b.shot);
  }

  /** The attribute names, in the order `vars(clip)` lists them. */
  const AttributeNames: seq<string> := ["name", "shot", "episode", "season"]

  /** `getattr(clip, attr)` for the data attributes of a clip. */
  function GetAttr(c: Clip, attr: string): Option<string>
  {
    if attr == "name" then Some(c.name)
    else if attr == "shot" then Some(c.shot)
    else if attr == "episode" then Some(c.episode)
    else if attr == "season" then Some(c.season)
    else None
  }

  /** `clip.get_attributes()`: the attribute names and values in declaration
      order, each value the one `getattr` gives for its name. */
  function Attributes(c: Clip): (attrs: seq<(string, string)>)
    ensures |attrs| == |AttributeNames|
    ensures forall i :: 0 <= i < |attrs| ==> attrs[i].0 == AttributeNames[i] && GetAttr(c, attrs[i].0) == Some(attrs[i].1)
    ensures forall i, j :: 0 <= i < j < |attrs| ==> attrs[i].0 != attrs[j].0
  {
    [("name", c.name), ("shot", c.shot), ("episode", c.episode), ("season", c.season)]
  }
}
