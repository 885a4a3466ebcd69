/**
 * The normaliser of the game feed: `process_cfb_data` turns each raw game
 * object of the College Football Data API into a canonical record seen from
 * the tracked team's side.
 */
module Normalizer {
  import opened Wrappers

  /** A raw game object; a field is `None` when the JSON object lacks that key. */
  datatype RawGame = RawGame(
    startDate: Option<string>,
    homeTeam: Option<string>,
    awayTeam: Option<string>,
    homePoints: Option<int>,
    awayPoints: Option<int>)

  /**
   * The canonical game record. Its five fields are also the natural key the
   * sync step deduplicates on: (date, opponent, points_for, points_against, home).
   * `home` is 1 for a home game and 0 otherwise.
   */
  datatype Game = Game(date: string, opponent: string, pointsFor: int, pointsAgainst: int, home: int)

  /** The default substituted for a missing date or team name. */
  const Unknown: string := "unknown"

  /** The team whose perspective `process_cfb_data` takes when no team is passed. */
  const DefaultTeam: string := "Michigan"

  /** Python's `s.split(sep)[0]`: the part of `s` before the first `sep`. */
  function SplitHead(s: string, sep: char): (r: string)
    ensures r <= s
    ensures sep !in r
    ensures |r| < |s| ==> s[|r|] == sep
  {
    if s == [] || s[0] == sep then [] else [s[0]] + SplitHead(s[1..], sep)
  }

  /**
   * The calendar day of an API timestamp: everything before the first 'T',
   * or the whole string when it has no 'T'.
   */
  function DayOf(s: string): (r: string)
    ensures r <= s
    ensures 'T' !in r
    ensures 'T' in s ==> |r| < |s| && s[|r|] == 'T'
    ensures 'T' !in s ==> r == s
  {
    if 'T' in s then SplitHead(s, 'T') else s
  }

  /** The body of the loop in `process_cfb_data`: one raw game, from `team`'s side. */
  function Normalize(raw: RawGame, team: string): (g: Game)
    ensures g.date == DayOf(raw.startDate.GetOr(Unknown))
    ensures 'T' !in g.date
    ensures g.home == 0 || g.home == 1
    ensures g.home == 1 <==> raw.homeTeam.GetOr(Unknown) == team
    ensures g.home == 1 ==> g.opponent == raw.awayTeam.GetOr(Unknown)
    ensures g.home == 0 ==> g.opponent == raw.homeTeam.GetOr(Unknown)
    ensures g.home == 1 ==> g.pointsFor == raw.homePoints.GetOr(0) && g.pointsAgainst == raw.awayPoints.GetOr(0)
    ensures g.home == 0 ==> g.pointsFor == raw.awayPoints.GetOr(0) && g.pointsAgainst == raw.homePoints.GetOr(0)
  {
    var date := DayOf(raw.startDate.GetOr(Unknown));
    var homeTeam := raw.homeTeam.GetOr(Unknown);
    var awayTeam := raw.awayTeam.GetOr(Unknown);
    if homeTeam == team then
      Game(date, awayTeam, raw.homePoints.GetOr(0), raw.awayPoints.GetOr(0), 1)
    else
      Game(date, homeTeam, raw.awayPoints.GetOr(0), raw.homePoints.GetOr(0), 0)
  }

  /** `process_cfb_data(raw_data, TEAM)`: one canonical record per raw game, in order. */
  function ProcessCfbData(raw: seq<RawGame>, team: string): (games: seq<Game>)
    ensures |games| == |raw|
    ensures forall i :: 0 <= i < |raw| ==> games[i] == Normalize(raw[i], team)
  {
    if raw == [] then [] else [Normalize(raw[0], team)] + ProcessCfbData(raw[1..], team)
  }

  /**
   * Processing each season separately and concatenating the results (as the
   * caller does, one season at a time) is the same as processing all at once.
   */
  lemma {:induction false} ProcessCfbDataConcat(a: seq<RawGame>, b: seq<RawGame>, team: string)
    ensures ProcessCfbData(a + b, team) == ProcessCfbData(a, team) + ProcessCfbData(b, team)
  {
    if a != [] {
      assert (a + b)[1..] == a[1..] + b;
      ProcessCfbDataConcat(a[1..], b, team);
    }
  }

  /** No processed date carries a time-of-day part. */
  lemma ProcessedDatesAreDays(raw: seq<RawGame>, team: string)
    ensures forall g :: g in ProcessCfbData(raw, team) ==> 'T' !in g.date
  {
  }

  /**
   * The two teams of one game see mirror images of it: the same date, each
   * other as opponent, the points swapped and opposite home flags.
   */
  lemma PerspectivesMirror(raw: RawGame, homeName: string, awayName: string)
    requires raw.homeTeam == Some(homeName) && raw.awayTeam == Some(awayName)
    requires homeName != awayName
    ensures var h, a := Normalize(raw, homeName), Normalize(raw, awayName);
      && h.date == a.date
      && h.opponent == awayName && a.opponent == homeName
      && h.pointsFor == a.pointsAgainst && h.pointsAgainst == a.pointsFor
      && h.home == 1 && a.home == 0
  {
  }

  /** A home game of the team: date cut to the day, the away side as opponent. */
  lemma HomeGameExample()
    ensures ProcessCfbData([RawGame(Some("2023-10-14T19:00Z"), Some("Michigan"), Some("Indiana"), Some(52), Some(7))], DefaultTeam)
         == [Game("2023-10-14", "Indiana", 52, 7, 1)]
  {
    var raw := RawGame(Some("2023-10-14T19:00Z"), Some("Michigan"), Some("Indiana"), Some(52), Some(7));
    assert "2023-10-14T19:00Z" == "2023-10-14" + "T" + "19:00Z";
    DayOfExample("2023-10-14", "19:00Z");
    assert ProcessCfbData([raw], DefaultTeam) == [Normalize(raw, DefaultTeam)];
  }

  /** An away game of the team: the home side as opponent and the points swapped. */
  lemma AwayGameExample()
    ensures ProcessCfbData([RawGame(Some("2023-09-20T19:00Z"), Some("Ohio State"), Some("Michigan"), Some(24), Some(30))], DefaultTeam)
         == [Game("2023-09-20", "Ohio State", 30, 24, 0)]
  {
    var raw := RawGame(Some("2023-09-20T19:00Z"), Some("Ohio State"), Some("Michigan"), Some(24), Some(30));
    assert "2023-09-20T19:00Z" == "2023-09-20" + "T" + "19:00Z";
    DayOfExample("2023-09-20", "19:00Z");
    assert ProcessCfbData([raw], DefaultTeam) == [Normalize(raw, DefaultTeam)];
  }

  /** An object with no keys at all gets every default. */
  lemma MissingKeysExample()
    ensures ProcessCfbData([RawGame(None, None, None, None, None)], DefaultTeam)
         == [Game("unknown", "unknown", 0, 0, 0)]
  {
  }

  /** A timestamp `day + "T" + time` with no 'T' in `day` is cut to `day`. */
  lemma DayOfExample(day: string, time: string)
    requires 'T' !in day
    ensures DayOf(day + "T" + time) == day
  {
    var s := day + "T" + time;
    assert s[|day|] == 'T';
    assert s[..|day|] == day;
  }
}
