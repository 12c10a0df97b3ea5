/**
 * The two-team revision of the analyser: every roster entry is free text that names a
 * player (by substring) or a draft pick; a team is valued by one scalar that weighs current
 * production, future value and cap impact by the trade mode; the headline names the winner
 * unless the best total is within 5 of another; each category is compared with a deadband of 1.
 */
module TwoTeam {
  import opened Wrappers
  import Text
  import Numbers
  import opened Categories
  import opened Csv

  /** `tradeMode`: the two modes the mode buttons set. */
  datatype TradeMode = Contend | Rebuild

  function Abs(x: real): real {
    if x < 0.0 then -x else x
  }

  // ---------------------------------------------------------------------------
  // Category comparison

  /** `CATEGORY_EPSILON`: category totals this close are even. */
  const CATEGORY_EPSILON: real := 1.0

  datatype CategoryOutcome = Win | Loss | Even {
    /** The same comparison seen from the other side. */
    function Flip(): CategoryOutcome {
      match this
      case Win => Loss
      case Loss => Win
      case Even => Even
    }
  }

  /** `compareCategory(a, b)`: even within the deadband, otherwise a win for the larger side. */
  function CompareCategory(a: real, b: real): (r: CategoryOutcome)
    ensures r == Even <==> -CATEGORY_EPSILON <= a - b <= CATEGORY_EPSILON
    ensures r == Win <==> a - b > CATEGORY_EPSILON
    ensures r == Loss <==> b - a > CATEGORY_EPSILON
  {
    if Abs(a - b) <= CATEGORY_EPSILON then Even
    else if a > b then Win
    else Loss
  }

  /** The comparison from the other side is the mirror image: a win there is a loss here. */
  lemma CompareCategoryMirror(a: real, b: real)
    ensures CompareCategory(b, a) == CompareCategory(a, b).Flip()
  {
  }

  // ---------------------------------------------------------------------------
  // Draft picks and mode multipliers

  /**
   * `pickValue(label, mode)`: a label (`desc`) naming a "1st" is worth 55, otherwise one naming a "2nd"
   * is worth 35 (case-insensitively), scaled by 1.4 when rebuilding and 0.7 otherwise; any
   * other label is worth nothing.
   */
  function PickValue(desc: string, mode: TradeMode): (v: real)
    ensures var l := Text.ToLower(desc);
            && (desc == [] ==> v == 0.0)
            && (!Text.Contains(l, "1st") && !Text.Contains(l, "2nd") ==> v == 0.0)
            && (Text.Contains(l, "1st") ==> v == if mode == Rebuild then 77.0 else 38.5)
            && (!Text.Contains(l, "1st") && Text.Contains(l, "2nd") ==> v == if mode == Rebuild then 49.0 else 24.5)
    ensures v in {0.0, 77.0, 49.0, 38.5, 24.5}
  {
    if desc == [] then 0.0
    else
      var l := Text.ToLower(desc);
      if !Text.Contains(l, "1st") && !Text.Contains(l, "2nd") then 0.0
      else
        var round := if Text.Contains(l, "1st") then 1 else 2;
        var base := if round == 1 then 55.0 else 35.0;
        if mode == Rebuild then base * 1.4 else base * 0.7
  }

  /** One row of `MODE_MULTIPLIER`. */
  datatype Multipliers = Multipliers(now: real, future: real, cap: real)

  /** `MODE_MULTIPLIER[mode]`. */
  function ModeMultiplier(mode: TradeMode): (m: Multipliers)
    ensures mode == Contend ==> m.now > 1.0 && m.future < 1.0 && m.cap < 1.0
    ensures mode == Rebuild ==> m.now < 1.0 && m.future > 1.0 && m.cap > 1.0
  {
    match mode
    case Contend => Multipliers(1.25, 0.8, 0.7)
    case Rebuild => Multipliers(0.85, 1.4, 1.1)
  }

  // ---------------------------------------------------------------------------
  // Reading the player CSV

  /**
   * `normalizeCSV(text)`: every line after the first becomes a record, blank lines included;
   * the fields are the trimmed names of the first line and hold the trimmed cells.
   */
  method NormalizeCsv(text: string) returns (records: seq<Record>)
    ensures var rows := Text.Split(text, '\n');
            && |records| == |rows| - 1
            && forall i :: 0 <= i < |records| ==>
                 && records[i] == RowRecord(Headers(rows[0]), Text.Split(rows[i + 1], ','))
                 && records[i].Keys == set h | h in Headers(rows[0])
  {
    var rows := Text.Split(text, '\n');
    var headers := Headers(rows[0]);
    records := [];
    var i := 1;
    while i < |rows|
      invariant 1 <= i <= |rows|
      invariant |records| == i - 1
      invariant forall k :: 0 <= k < |records| ==>
                  && records[k] == RowRecord(headers, Text.Split(rows[k + 1], ','))
                  && records[k].Keys == set h | h in headers
    {
      var rec := FillRecord(headers, Text.Split(rows[i], ','));
      RowRecordKeys(headers, Text.Split(rows[i], ','));
      records := records + [rec];
      i := i + 1;
    }
  }

  // ---------------------------------------------------------------------------
  // Player matching

  /** A player's name as it is searched: the cleaned `Player` field, lower-cased. */
  function SearchName(p: Record): string {
    Text.ToLower(Clean(Field(p, "Player")))
  }

  /** The lower-cased query occurs in the player's search name. */
  predicate NameMatches(p: Record, q: string) {
    Text.Contains(SearchName(p), q)
  }

  /** The search names of the records, in list order. */
  function SearchNames(players: seq<Record>): (names: seq<string>)
    ensures |names| == |players|
    ensures forall i :: 0 <= i < |players| ==> names[i] == SearchName(players[i])
  {
    seq(|players|, i requires 0 <= i < |players| => SearchName(players[i]))
  }

  /** The position of the first name at or after `k` that contains `q`. */
  function FirstMatchFrom(names: seq<string>, q: string, k: nat): (r: Option<nat>)
    requires k <= |names|
    ensures r.Some? ==> k <= r.value < |names| && Text.Contains(names[r.value], q)
    ensures r.Some? ==> forall j :: k <= j < r.value ==> !Text.Contains(names[j], q)
    ensures r.None? ==> forall j :: k <= j < |names| ==> !Text.Contains(names[j], q)
    decreases |names| - k
  {
    if k == |names| then None
    else if Text.Contains(names[k], q) then Some(k)
    else FirstMatchFrom(names, q, k + 1)
  }

  /**
   * `matchPlayer(input)`: nothing for an empty input; otherwise the first record, in list
   * order, whose name contains the input, case-insensitively.
   */
  function MatchPlayer(players: seq<Record>, input: string): (r: Option<Record>)
    ensures input == [] ==> r.None?
    ensures input != [] && r.None? ==>
              forall j :: 0 <= j < |players| ==> !NameMatches(players[j], Text.ToLower(input))
    ensures r.Some? ==> exists i :: 0 <= i < |players| && players[i] == r.value
                          && NameMatches(players[i], Text.ToLower(input))
                          && forall j :: 0 <= j < i ==> !NameMatches(players[j], Text.ToLower(input))
  {
    if input == [] then None
    else
      match FirstMatchFrom(SearchNames(players), Text.ToLower(input), 0)
      case None => None
      case Some(i) => Some(players[i])
  }

  // ---------------------------------------------------------------------------
  // Scoring one player

  /** `{now, future, cap, cats}`: the valuation of a player, an entry or a whole team. */
  datatype Valuation = Valuation(now: real, future: real, cap: real, cats: map<Category, real>)

  const ZERO: Valuation := Valuation(0.0, 0.0, 0.0, map[])

  /** A player is a goalie when the cleaned `Position` is exactly "G". */
  predicate IsGoalie(p: Record) {
    Position(p) == "G"
  }

  /** The cleaned `Position` field. */
  function Position(p: Record): string {
    Clean(Field(p, "Position"))
  }

  /** The categories a player is scored on: the goalie ones for a goalie, else the skater ones. */
  function PositionCategories(p: Record): seq<Category> {
    if IsGoalie(p) then GOALIE_CATEGORIES else SKATER_CATEGORIES
  }

  /** `Number(p[c] || 0)`: a missing or empty cell is 0; text that is not a number is read as 0. */
  function StatValue(p: Record, c: Category): real {
    Numbers.NumberOf(Field(p, c.Name()).GetOr("")).GetOr(0.0)
  }

  /** The sum of a player's values over the given categories. */
  function CategorySum(p: Record, cats: seq<Category>): real
    decreases |cats|
  {
    if cats == [] then 0.0 else CategorySum(p, cats[..|cats| - 1]) + StatValue(p, cats[|cats| - 1])
  }

  /** The per-category breakdown of a player over the given categories, filled in order. */
  function Breakdown(p: Record, cats: seq<Category>): map<Category, real>
    decreases |cats|
  {
    if cats == [] then map[]
    else Breakdown(p, cats[..|cats| - 1])[cats[|cats| - 1] := StatValue(p, cats[|cats| - 1])]
  }

  /** The breakdown has exactly the given categories, each holding the player's value for it. */
  lemma BreakdownFields(p: Record, cats: seq<Category>)
    ensures Breakdown(p, cats).Keys == set c | c in cats
    ensures forall c :: c in Breakdown(p, cats) ==> Breakdown(p, cats)[c] == StatValue(p, c)
  {
    BreakdownKeys(p, cats);
    BreakdownValues(p, cats);
  }

  lemma {:induction false} BreakdownKeys(p: Record, cats: seq<Category>)
    ensures Breakdown(p, cats).Keys == set c | c in cats
    decreases |cats|
  {
    if cats != [] {
      var n := |cats| - 1;
      BreakdownKeys(p, cats[..n]);
      assert (set c | c in cats) == (set c | c in cats[..n]) + {cats[n]} by {
        assert cats == cats[..n] + [cats[n]];
      }
    }
  }

  lemma {:induction false} BreakdownValues(p: Record, cats: seq<Category>)
    ensures forall c :: c in Breakdown(p, cats) ==> Breakdown(p, cats)[c] == StatValue(p, c)
    decreases |cats|
  {
    if cats != [] {
      BreakdownValues(p, cats[..|cats| - 1]);
    }
  }

  /** `Number(p.Age || 28)`: a missing or empty age is 28; None is NaN (text that is not a number). */
  function AgeOf(p: Record): Option<real> {
    var age := Field(p, "Age");
    if age.None? || age.value == [] then Some(28.0) else Numbers.NumberOf(age.value)
  }

  /**
   * The future term of a player: 30 under 24, -20 over 30, 0 otherwise; NaN fails both
   * comparisons and so gives 0.
   */
  function FutureValue(age: Option<real>): (f: real)
    ensures f == 30.0 <==> age.Some? && age.value < 24.0
    ensures f == -20.0 <==> age.Some? && age.value > 30.0
    ensures f == 0.0 <==> age.None? || 24.0 <= age.value <= 30.0
  {
    match age
    case None => 0.0
    case Some(a) => if a < 24.0 then 30.0 else if a > 30.0 then -20.0 else 0.0
  }

  /** `Number(p.Salary || 0)`, with text that is not a number read as 0. */
  function SalaryValue(p: Record): real {
    Numbers.NumberOf(Field(p, "Salary").GetOr("")).GetOr(0.0)
  }

  /** The valuation `scorePlayer` gives a matched player or, for no player, zero. */
  function PlayerScore(p: Option<Record>): (s: Valuation)
    ensures p.None? ==> s == ZERO
    ensures s.future == 30.0 || s.future == 0.0 || s.future == -20.0
  {
    match p
    case None => ZERO
    case Some(r) =>
      Valuation(CategorySum(r, PositionCategories(r)), FutureValue(AgeOf(r)), -SalaryValue(r) / 1000000.0,
                Breakdown(r, PositionCategories(r)))
  }

  /**
   * `scorePlayer(p)`: no player scores zero; a player's `now` is the sum of the values of the
   * categories of its position, the breakdown has exactly those categories, `future` comes
   * from the age brackets and `cap` is minus the salary in millions.
   */
  method ScorePlayer(p: Option<Record>) returns (s: Valuation)
    ensures s == PlayerScore(p)
  {
    if p.None? {
      return ZERO;
    }
    var r := p.value;
    var cats := PositionCategories(r);
    var catScore := 0.0;
    var catBreakdown: map<Category, real> := map[];
    for i := 0 to |cats|
      invariant catScore == CategorySum(r, cats[..i])
      invariant catBreakdown == Breakdown(r, cats[..i])
    {
      assert cats[..i + 1][..i] == cats[..i];
      var v := StatValue(r, cats[i]);
      catBreakdown := catBreakdown[cats[i] := v];
      catScore := catScore + v;
    }
    assert cats[..|cats|] == cats;
    var future := FutureValue(AgeOf(r));
    var cap := -SalaryValue(r) / 1000000.0;
    s := Valuation(catScore, future, cap, catBreakdown);
  }

  /**
   * What a player's score holds: nothing for no player; for a player, exactly the categories
   * of its position with the player's value in each, their sum as `now`, the age bracket as
   * `future` and minus the salary in millions as `cap`.
   */
  lemma PlayerScoreFields(p: Option<Record>)
    ensures p.None? ==> PlayerScore(p) == ZERO
    ensures p.Some? ==> var s, cats := PlayerScore(p), PositionCategories(p.value);
              && s.cats.Keys == set c | c in cats
              && (forall c :: c in s.cats ==> s.cats[c] == StatValue(p.value, c))
              && s.now == CategorySum(p.value, cats)
              && s.future == FutureValue(AgeOf(p.value))
              && s.cap == -SalaryValue(p.value) / 1000000.0
  {
    if p.Some? {
      BreakdownFields(p.value, PositionCategories(p.value));
    }
  }

  // ---------------------------------------------------------------------------
  // Valuing a team

  /** `m[k] || 0`. */
  function Get0(m: map<Category, real>, k: Category): real {
    if k in m then m[k] else 0.0
  }

  /** Category breakdowns added key by key; a key missing on one side counts as 0. */
  function MergeCats(m1: map<Category, real>, m2: map<Category, real>): (m: map<Category, real>)
    ensures m.Keys == m1.Keys + m2.Keys
    ensures forall k :: Get0(m, k) == Get0(m1, k) + Get0(m2, k)
  {
    map k | k in m1.Keys + m2.Keys :: Get0(m1, k) + Get0(m2, k)
  }

  /** Two valuations added term by term. */
  function Add(a: Valuation, b: Valuation): Valuation {
    Valuation(a.now + b.now, a.future + b.future, a.cap + b.cap, MergeCats(a.cats, b.cats))
  }

  lemma AddZero(a: Valuation)
    ensures Add(a, ZERO) == a && Add(ZERO, a) == a
  {
    assert MergeCats(a.cats, map[]) == a.cats;
    assert MergeCats(map[], a.cats) == a.cats;
  }

  /** Adding a valuation that holds only future value changes only `future`. */
  lemma AddFuture(a: Valuation, x: real)
    ensures Add(a, Valuation(0.0, x, 0.0, map[])) == a.(future := a.future + x)
  {
    assert MergeCats(a.cats, map[]) == a.cats;
  }

  /** Merging breakdowns is associative. */
  lemma MergeCatsAssociative(m1: map<Category, real>, m2: map<Category, real>, m3: map<Category, real>)
    ensures MergeCats(MergeCats(m1, m2), m3) == MergeCats(m1, MergeCats(m2, m3))
  {
    var l, r := MergeCats(MergeCats(m1, m2), m3), MergeCats(m1, MergeCats(m2, m3));
    forall k | k in l ensures l[k] == r[k] {
      assert l[k] == Get0(l, k);
      assert r[k] == Get0(r, k);
    }
  }

  /** Adding valuations is associative. */
  lemma AddAssociative(a: Valuation, b: Valuation, c: Valuation)
    ensures Add(Add(a, b), c) == Add(a, Add(b, c))
  {
    MergeCatsAssociative(a.cats, b.cats, c.cats);
  }

  /** An unmatched entry that mentions "pick", in any case, is a draft pick. */
  predicate IsPickEntry(players: seq<Record>, entry: string) {
    MatchPlayer(players, entry).None? && Text.Contains(Text.ToLower(entry), "pick")
  }

  /**
   * What one roster entry adds to its team: a draft pick adds its pick value to `future`;
   * any other entry adds the score of the player it matches, which is zero when it matches none.
   */
  function EntryValuation(players: seq<Record>, mode: TradeMode, entry: string): Valuation {
    if IsPickEntry(players, entry) then Valuation(0.0, PickValue(entry, mode), 0.0, map[])
    else PlayerScore(MatchPlayer(players, entry))
  }

  /** The team valuation: the sum of its entries' valuations, in roster order. */
  function TeamValuation(players: seq<Record>, mode: TradeMode, entries: seq<string>): Valuation
    decreases |entries|
  {
    if entries == [] then ZERO
    else Add(TeamValuation(players, mode, entries[..|entries| - 1]),
             EntryValuation(players, mode, entries[|entries| - 1]))
  }

  /**
   * The three kinds of roster entry: a draft pick adds only its pick value, to `future`; an
   * entry that matches no player and is no pick adds nothing; any other entry adds the score
   * of the player it matches.
   */
  lemma EntryKinds(players: seq<Record>, mode: TradeMode, entry: string)
    ensures var v, p := EntryValuation(players, mode, entry), MatchPlayer(players, entry);
            && (IsPickEntry(players, entry) ==> v == Valuation(0.0, PickValue(entry, mode), 0.0, map[]))
            && (p.None? && !IsPickEntry(players, entry) ==> v == ZERO)
            && (p.Some? ==> v == PlayerScore(p) && v.cats.Keys == set c | c in PositionCategories(p.value))
  {
    PlayerScoreFields(MatchPlayer(players, entry));
  }

  /**
   * A roster none of whose entries names a player (draft picks and ignored entries only)
   * has no current value, no cap cost and no category breakdown.
   */
  lemma {:induction false} NoPlayersNoValue(players: seq<Record>, mode: TradeMode, entries: seq<string>)
    requires forall i :: 0 <= i < |entries| ==> MatchPlayer(players, entries[i]).None?
    ensures var v := TeamValuation(players, mode, entries);
            v.now == 0.0 && v.cap == 0.0 && v.cats == map[]
    decreases |entries|
  {
    if entries != [] {
      var n := |entries| - 1;
      assert MatchPlayer(players, entries[n]).None?;
      NoPlayersNoValue(players, mode, entries[..n]);
    }
  }

  /** `Object.keys(s.cats).forEach(k => acc.cats[k] = (acc.cats[k] || 0) + s.cats[k])`. */
  method AccumulateCategories(acc: map<Category, real>, cats: map<Category, real>) returns (r: map<Category, real>)
    ensures r == MergeCats(acc, cats)
  {
    r := acc;
    var todo := cats.Keys;
    while todo != {}
      invariant todo <= cats.Keys
      invariant r.Keys == acc.Keys + (cats.Keys - todo)
      invariant forall k :: k in r ==> r[k] == Get0(acc, k) + (if k in cats && k !in todo then cats[k] else 0.0)
      decreases todo
    {
      var k :| k in todo;
      r := r[k := Get0(r, k) + cats[k]];
      todo := todo - {k};
    }
  }

  /** `evaluateTeam(team)`: the reduction over the roster entries. */
  method EvaluateTeam(players: seq<Record>, mode: TradeMode, entries: seq<string>) returns (v: Valuation)
    ensures v == TeamValuation(players, mode, entries)
  {
    v := ZERO;
    for i := 0 to |entries|
      invariant v == TeamValuation(players, mode, entries[..i])
    {
      TeamValuationStep(players, mode, entries, i);
      v := AddEntry(players, mode, v, entries[i]);
    }
    assert entries[..|entries|] == entries;
  }

  /** One step of the reduction: the accumulator after one more roster entry. */
  method AddEntry(players: seq<Record>, mode: TradeMode, acc: Valuation, entry: string) returns (v: Valuation)
    ensures v == Add(acc, EntryValuation(players, mode, entry))
  {
    var p := MatchPlayer(players, entry);
    if p.None? && Text.Contains(Text.ToLower(entry), "pick") {
      AddFuture(acc, PickValue(entry, mode));
      v := acc.(future := acc.future + PickValue(entry, mode));
    } else {
      var s := ScorePlayer(p);
      var cats := AccumulateCategories(acc.cats, s.cats);
      v := Valuation(acc.now + s.now, acc.future + s.future, acc.cap + s.cap, cats);
    }
  }

  /** Extending a roster prefix by one entry adds that entry's valuation. */
  lemma TeamValuationStep(players: seq<Record>, mode: TradeMode, entries: seq<string>, i: nat)
    requires i < |entries|
    ensures TeamValuation(players, mode, entries[..i + 1])
         == Add(TeamValuation(players, mode, entries[..i]), EntryValuation(players, mode, entries[i]))
  {
    assert entries[..i + 1][..i] == entries[..i];
  }

  /** A team valuation is a sum over its entries: splitting the roster splits the valuation. */
  lemma {:induction false} TeamValuationAppend(players: seq<Record>, mode: TradeMode, xs: seq<string>, ys: seq<string>)
    ensures TeamValuation(players, mode, xs + ys)
         == Add(TeamValuation(players, mode, xs), TeamValuation(players, mode, ys))
    decreases |ys|
  {
    if ys == [] {
      assert xs + ys == xs;
      AddZero(TeamValuation(players, mode, xs));
    } else {
      var n := |ys| - 1;
      assert (xs + ys)[..|xs + ys| - 1] == xs + ys[..n];
      assert (xs + ys)[|xs + ys| - 1] == ys[n];
      TeamValuationAppend(players, mode, xs, ys[..n]);
      AddAssociative(TeamValuation(players, mode, xs), TeamValuation(players, mode, ys[..n]),
                     EntryValuation(players, mode, ys[n]));
    }
  }

  /**
   * An entry that matches no player and does not mention "pick" (an empty entry among them)
   * leaves the team valuation as it was, wherever it stands in the roster.
   */
  lemma IgnoredEntry(players: seq<Record>, mode: TradeMode, xs: seq<string>, e: string, ys: seq<string>)
    requires MatchPlayer(players, e).None? && !Text.Contains(Text.ToLower(e), "pick")
    ensures TeamValuation(players, mode, xs + [e] + ys) == TeamValuation(players, mode, xs + ys)
  {
    IgnoredEntryAlone(players, mode, e);
    TeamValuationAppend(players, mode, xs + [e], ys);
    TeamValuationAppend(players, mode, xs, [e]);
    AddZero(TeamValuation(players, mode, xs));
    TeamValuationAppend(players, mode, xs, ys);
  }

  lemma IgnoredEntryAlone(players: seq<Record>, mode: TradeMode, e: string)
    requires MatchPlayer(players, e).None? && !Text.Contains(Text.ToLower(e), "pick")
    ensures TeamValuation(players, mode, [e]) == ZERO
  {
    assert [e][..0] == [];
    AddZero(ZERO);
  }

  /** The sum of the pick values of a sequence of labels. */
  function PickTotal(entries: seq<string>, mode: TradeMode): real
    decreases |entries|
  {
    if entries == [] then 0.0 else PickTotal(entries[..|entries| - 1], mode) + PickValue(entries[|entries| - 1], mode)
  }

  /** A roster of draft picks only has no current production, no cap term and no categories; its future is its picks' total. */
  lemma {:induction false} PicksOnlyTeam(players: seq<Record>, mode: TradeMode, entries: seq<string>)
    requires forall i :: 0 <= i < |entries| ==> IsPickEntry(players, entries[i])
    ensures TeamValuation(players, mode, entries) == Valuation(0.0, PickTotal(entries, mode), 0.0, map[])
    decreases |entries|
  {
    if entries != [] {
      var n := |entries| - 1;
      PicksOnlyTeam(players, mode, entries[..n]);
      assert IsPickEntry(players, entries[n]);
      assert MergeCats(map[], map[]) == map[];
    }
  }

  /** "2024 1st pick" is a draft pick naming a first round: 77 under rebuild. */
  lemma FirstRoundLabel()
    ensures IsPickEntry([], "2024 1st pick") && PickValue("2024 1st pick", Rebuild) == 77.0
  {
    var desc := "2024 1st pick";
    assert Text.ToLower(desc) == desc;
    ContainsFrom(desc, "pick", 9);
    ContainsFrom(desc, "1st", 5);
  }

  /** "2025 2nd pick" is a draft pick naming a second round only: 49 under rebuild. */
  lemma SecondRoundLabel()
    ensures IsPickEntry([], "2025 2nd pick") && PickValue("2025 2nd pick", Rebuild) == 49.0
  {
    var desc := "2025 2nd pick";
    assert Text.ToLower(desc) == desc;
    ContainsFrom(desc, "pick", 9);
    NotContains(desc, "1st");
    ContainsFrom(desc, "2nd", 5);
  }

  /** A two-entry roster of draft picks is worth the sum of their pick values, in `future` only. */
  lemma TwoPicks(players: seq<Record>, mode: TradeMode, x: string, y: string)
    requires IsPickEntry(players, x) && IsPickEntry(players, y)
    ensures TeamValuation(players, mode, [x, y]) == Valuation(0.0, PickValue(x, mode) + PickValue(y, mode), 0.0, map[])
  {
    PicksOnlyTeam(players, mode, [x, y]);
    assert [x, y][..1] == [x];
    assert PickTotal([x], mode) == PickValue(x, mode) by {
      assert [x][..0] == [];
    }
  }

  /**
   * With no player list, "2024 1st pick" and "2025 2nd pick" are worth (55 + 35) * 1.4 = 126
   * of future value under rebuild.
   */
  lemma PickExample()
    ensures TeamValuation([], Rebuild, ["2024 1st pick", "2025 2nd pick"]) == Valuation(0.0, 126.0, 0.0, map[])
  {
    FirstRoundLabel();
    SecondRoundLabel();
    TwoPicks([], Rebuild, "2024 1st pick", "2025 2nd pick");
  }

  /** Two entries that are ignored are worth nothing together. */
  lemma TwoIgnored(players: seq<Record>, mode: TradeMode, x: string, y: string)
    requires MatchPlayer(players, x).None? && !Text.Contains(Text.ToLower(x), "pick")
    requires MatchPlayer(players, y).None? && !Text.Contains(Text.ToLower(y), "pick")
    ensures TeamValuation(players, mode, [x, y]) == ZERO
  {
    IgnoredEntryAlone(players, mode, x);
    assert [x, y][..1] == [x];
    assert EntryValuation(players, mode, y) == ZERO;
    AddZero(ZERO);
  }

  /** "2024 1st" and "2025 2nd" do not mention "pick" and match no player, so they are worth nothing. */
  lemma UnmarkedPickExample()
    ensures TeamValuation([], Rebuild, ["2024 1st", "2025 2nd"]) == ZERO
  {
    var x, y := "2024 1st", "2025 2nd";
    assert Text.ToLower(x) == x;
    assert Text.ToLower(y) == y;
    NotContains(x, "pick");
    NotContains(y, "pick");
    TwoIgnored([], Rebuild, x, y);
  }

  lemma ContainsFrom(s: string, q: string, k: nat)
    requires k + |q| <= |s| && s[k..k + |q|] == q
    ensures Text.Contains(s, q)
  {
    assert Text.OccursAt(s, q, k);
  }

  lemma NotContains(s: string, q: string)
    requires q != [] && q[0] !in s
    ensures !Text.Contains(s, q)
  {
    forall i | 0 <= i <= |s| - |q| ensures !Text.OccursAt(s, q, i) {
      assert s[i..i + |q|][0] == s[i];
    }
  }

  // ---------------------------------------------------------------------------
  // Total value and the headline

  /** `totalValue(r)`: the three terms weighed by the mode's multipliers. */
  function TotalValue(v: Valuation, mode: TradeMode): (t: real)
    ensures mode == Contend ==> t == 1.25 * v.now + 0.8 * v.future + 0.7 * v.cap
    ensures mode == Rebuild ==> t == 0.85 * v.now + 1.4 * v.future + 1.1 * v.cap
  {
    var m := ModeMultiplier(mode);
    v.now * m.now + v.future * m.future + v.cap * m.cap
  }

  /** The total value of a roster is the sum of the total values of its parts. */
  lemma TeamTotalAppend(players: seq<Record>, mode: TradeMode, xs: seq<string>, ys: seq<string>)
    ensures TotalValue(TeamValuation(players, mode, xs + ys), mode)
         == TotalValue(TeamValuation(players, mode, xs), mode) + TotalValue(TeamValuation(players, mode, ys), mode)
  {
    TeamValuationAppend(players, mode, xs, ys);
  }

  /** `Math.max(...xs)` of a non-empty list. */
  function Max(xs: seq<real>): (m: real)
    requires |xs| >= 1
    ensures m in xs
    ensures forall i :: 0 <= i < |xs| ==> xs[i] <= m
  {
    if |xs| == 1 then xs[0]
    else
      var rest := Max(xs[1..]);
      assert forall i :: 1 <= i < |xs| ==> xs[i] == xs[1..][i - 1];
      if xs[0] >= rest then xs[0] else rest
  }

  /** `xs.indexOf(v)` of a value that occurs. */
  function IndexOf(xs: seq<real>, v: real): (i: nat)
    requires v in xs
    ensures i < |xs| && xs[i] == v
    ensures forall j :: 0 <= j < i ==> xs[j] != v
  {
    if xs[0] == v then 0 else 1 + IndexOf(xs[1..], v)
  }

  /** The trade deadband: totals less than this far apart are even. */
  const TRADE_EPSILON: real := 5.0

  predicate Near(v: real, best: real) {
    Abs(v - best) < TRADE_EPSILON
  }

  /** `totals.filter(v => Math.abs(v - best) < 5).length`. */
  function CountNear(xs: seq<real>, best: real): (n: nat)
    ensures n <= |xs|
  {
    if xs == [] then 0 else (if Near(xs[0], best) then 1 else 0) + CountNear(xs[1..], best)
  }

  /** When `xs[k]` is near, some other total is near exactly when more than one is. */
  lemma {:induction false} CountNearOthers(xs: seq<real>, best: real, k: nat)
    requires k < |xs| && Near(xs[k], best)
    ensures CountNear(xs, best) >= 1
    ensures CountNear(xs, best) > 1 <==> exists j :: 0 <= j < |xs| && j != k && Near(xs[j], best)
  {
    if k == 0 {
      CountNearNone(xs[1..], best);
      if exists j :: 0 <= j < |xs| && j != 0 && Near(xs[j], best) {
        var j :| 0 <= j < |xs| && j != 0 && Near(xs[j], best);
        assert Near(xs[1..][j - 1], best);
      }
    } else {
      CountNearOthers(xs[1..], best, k - 1);
      if exists j :: 0 <= j < |xs| && j != k && Near(xs[j], best) {
        var j :| 0 <= j < |xs| && j != k && Near(xs[j], best);
        if j != 0 {
          assert Near(xs[1..][j - 1], best);
        }
      }
      if exists j :: 0 <= j < |xs| - 1 && j != k - 1 && Near(xs[1..][j], best) {
        var j :| 0 <= j < |xs| - 1 && j != k - 1 && Near(xs[1..][j], best);
        assert Near(xs[j + 1], best);
      }
    }
  }

  lemma {:induction false} CountNearNone(xs: seq<real>, best: real)
    ensures CountNear(xs, best) > 0 <==> exists j :: 0 <= j < |xs| && Near(xs[j], best)
  {
    if xs != [] {
      CountNearNone(xs[1..], best);
      if exists j :: 0 <= j < |xs| - 1 && Near(xs[1..][j], best) {
        var j :| 0 <= j < |xs| - 1 && Near(xs[1..][j], best);
        assert Near(xs[j + 1], best);
      }
      if exists j :: 0 <= j < |xs| && Near(xs[j], best) {
        var j :| 0 <= j < |xs| && Near(xs[j], best);
        if j != 0 {
          assert Near(xs[1..][j - 1], best);
        }
      }
    }
  }

  /** The headline: an even trade, or the team at a position wins. */
  datatype Decision = EvenTrade | Wins(team: nat)

  /**
   * The winner rule on the teams' total values: an even trade when some other team is
   * strictly within 5 of the best total; otherwise the first team holding the best total
   * wins, ahead of every other team by at least 5.
   */
  function Decide(totals: seq<real>): (d: Decision)
    requires |totals| >= 1
    ensures var best := Max(totals);
            var first := IndexOf(totals, best);
            && (d == EvenTrade <==> exists j :: 0 <= j < |totals| && j != first && Abs(totals[j] - best) < 5.0)
            && (d.Wins? ==> d.team == first)
            && (d.Wins? ==> forall j :: 0 <= j < |totals| && j != d.team ==> totals[j] <= totals[d.team] - 5.0)
  {
    var best := Max(totals);
    var first := IndexOf(totals, best);
    CountNearOthers(totals, best, first);
    if CountNear(totals, best) > 1 then EvenTrade else Wins(first)
  }

  /** The text shown for a decision: "Even Trade" or "<team name> Wins". */
  function Headline(d: Decision, names: seq<string>): (s: string)
    requires d.Wins? ==> d.team < |names|
    ensures d == EvenTrade <==> s == "Even Trade"
    ensures d.Wins? ==> |s| == |names[d.team]| + 5 && s[..|names[d.team]|] == names[d.team] && s[|names[d.team]|..] == " Wins"
  {
    match d
    case EvenTrade => "Even Trade"
    case Wins(i) =>
      var s := names[i] + " Wins";
      assert s[|s| - 1] != "Even Trade"[9];
      s
  }

  /** `teams.map(evaluateTeam)`: one valuation per roster. */
  method EvaluateTeams(players: seq<Record>, mode: TradeMode, rosters: seq<seq<string>>) returns (results: seq<Valuation>)
    ensures |results| == |rosters|
    ensures forall i :: 0 <= i < |rosters| ==> results[i] == TeamValuation(players, mode, rosters[i])
  {
    ghost var expected := seq(|rosters|, k requires 0 <= k < |rosters| => TeamValuation(players, mode, rosters[k]));
    results := [];
    for i := 0 to |rosters|
      invariant results == expected[..i]
    {
      var v := EvaluateTeam(players, mode, rosters[i]);
      assert expected[..i + 1] == expected[..i] + [v];
      results := results + [v];
    }
    assert expected[..|rosters|] == expected;
  }

  /** `results.map(totalValue)`. */
  function Totals(results: seq<Valuation>, mode: TradeMode): (ts: seq<real>)
    ensures |ts| == |results|
    ensures forall i :: 0 <= i < |results| ==> ts[i] == TotalValue(results[i], mode)
  {
    seq(|results|, i requires 0 <= i < |results| => TotalValue(results[i], mode))
  }

  // ---------------------------------------------------------------------------
  // Category rows

  /** One row of the category breakdown: the two teams' values and each side's outcome. */
  datatype CategoryRow = CategoryRow(category: Category, teamA: real, teamB: real,
                                     resultA: CategoryOutcome, resultB: CategoryOutcome)

  /**
   * `categoryResults`: with fewer than two teams, no rows; otherwise one row per category,
   * skater categories first, comparing the first two teams' breakdowns (a missing category
   * counts 0), each side's outcome the mirror of the other's.
   */
  function CategoryRows(results: seq<Valuation>): (rows: seq<CategoryRow>)
    ensures |results| < 2 ==> rows == []
    ensures |results| >= 2 ==> |rows| == |ALL_CATEGORIES|
    ensures |results| >= 2 ==> forall i :: 0 <= i < |rows| ==>
              && rows[i].category == ALL_CATEGORIES[i]
              && rows[i].teamA == Get0(results[0].cats, ALL_CATEGORIES[i])
              && rows[i].teamB == Get0(results[1].cats, ALL_CATEGORIES[i])
              && rows[i].resultB == rows[i].resultA.Flip()
              && (rows[i].resultA == Even <==> Abs(rows[i].teamA - rows[i].teamB) <= 1.0)
              && (rows[i].resultA == Win <==> rows[i].teamA > rows[i].teamB + 1.0)
  {
    if |results| < 2 then []
    else
      var base, compare := results[0].cats, results[1].cats;
      seq(|ALL_CATEGORIES|, i requires 0 <= i < |ALL_CATEGORIES| =>
        var a, b := Get0(base, ALL_CATEGORIES[i]), Get0(compare, ALL_CATEGORIES[i]);
        CategoryRow(ALL_CATEGORIES[i], a, b, CompareCategory(a, b), CompareCategory(b, a)))
  }
}
