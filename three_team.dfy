/**
 * The three-team revision of the analyser: players are loaded from CSV and indexed by a
 * normalised name key; each team is a duplicate-free list of keys; a team is scored by its
 * weighted total in every category plus its salary; every team at a category's maximum wins
 * it, only sole winners are tallied, and the verdict is balanced when the two best tallies tie.
 */
module ThreeTeam {
  import opened Wrappers
  import Text
  import Numbers
  import opened Categories
  import opened Csv

  // ---------------------------------------------------------------------------
  // Name keys

  /** A key: lower-case ASCII letters only. */
  predicate IsKey(s: string) {
    forall i :: 0 <= i < |s| ==> 'a' <= s[i] <= 'z'
  }

  /**
   * What one character contributes to a key once lower-cased and stripped of everything but
   * 'a'-'z': an ASCII letter gives its lower case; U+0130 (capital I with dot above) lower-cases
   * to "i" followed by a combining dot, which keeps the "i"; U+212A (the Kelvin sign)
   * lower-cases to "k"; every other character gives nothing.
   */
  function KeyChars(c: char): (r: string)
    ensures |r| <= 1 && IsKey(r)
    ensures 'a' <= c <= 'z' ==> r == [c]
  {
    if 'a' <= c <= 'z' then [c]
    else if 'A' <= c <= 'Z' then [Text.LowerChar(c)]
    else if c == '\U{0130}' then "i"
    else if c == '\U{212A}' then "k"
    else []
  }

  /** `normalizeName(name)`: lower-case, then drop every character outside 'a'-'z'. */
  function NormalizeName(name: string): (r: string)
    ensures IsKey(r)
    ensures |r| <= |name|
    decreases |name|
  {
    if name == [] then [] else KeyChars(name[0]) + NormalizeName(name[1..])
  }

  /** `s.replace(/[^a-z]/g, "")`: the characters 'a'-'z' of `s`, in order. */
  function StripToKey(s: string): (r: string)
    ensures IsKey(r)
    decreases |s|
  {
    if s == [] then []
    else if 'a' <= s[0] <= 'z' then [s[0]] + StripToKey(s[1..])
    else StripToKey(s[1..])
  }

  /**
   * For a name without U+0130 or U+212A, the key is the name lower-cased and then stripped of
   * everything outside 'a'-'z': capitals become their lower case, other characters vanish.
   */
  lemma {:induction false} NormalizeNameLowerStrip(name: string)
    requires forall i :: 0 <= i < |name| ==> name[i] != '\U{0130}' && name[i] != '\U{212A}'
    ensures NormalizeName(name) == StripToKey(Text.ToLower(name))
    decreases |name|
  {
    if name != [] {
      var low := Text.ToLower(name);
      assert low[1..] == Text.ToLower(name[1..]);
      NormalizeNameLowerStrip(name[1..]);
    }
  }

  /** Normalising a name one character at a time. */
  lemma NormalizeNameCons(c: char, rest: string)
    ensures NormalizeName([c] + rest) == KeyChars(c) + NormalizeName(rest)
  {
    assert ([c] + rest)[1..] == rest;
  }

  /** A capitalised word of ASCII letters normalises to the word in lower case. */
  lemma CapitalWordKey(w: string)
    requires w != [] && 'A' <= w[0] <= 'Z' && IsKey(w[1..])
    ensures NormalizeName(w) == [Text.LowerChar(w[0])] + w[1..]
  {
    NormalizeKey(w[1..]);
  }

  /** A space between two parts of a name leaves no trace in the key. */
  lemma SpaceDropped(x: string, y: string)
    ensures NormalizeName(x + " " + y) == NormalizeName(x) + NormalizeName(y)
  {
    var kx := NormalizeName(x);
    assert NormalizeName(x + " ") == kx by {
      NormalizeNameAppend(x, " ");
      NormalizeNameCons(' ', []);
      assert [' '] + [] == " ";
      assert kx + [] == kx;
    }
    NormalizeNameAppend(x + " ", y);
  }

  /**
   * A first and a last name, each a capitalised word of ASCII letters, joined by a space:
   * the key is both words in lower case with the space dropped ("Joe Smith" gives "joesmith").
   */
  lemma TwoWordKey(first: string, last: string)
    requires first != [] && 'A' <= first[0] <= 'Z' && IsKey(first[1..])
    requires last != [] && 'A' <= last[0] <= 'Z' && IsKey(last[1..])
    ensures NormalizeName(first + " " + last)
         == ([Text.LowerChar(first[0])] + first[1..]) + ([Text.LowerChar(last[0])] + last[1..])
  {
    SpaceDropped(first, last);
    CapitalWordKey(first);
    CapitalWordKey(last);
  }

  /** Normalising a concatenation normalises each part. */
  lemma {:induction false} NormalizeNameAppend(x: string, y: string)
    ensures NormalizeName(x + y) == NormalizeName(x) + NormalizeName(y)
    decreases |x|
  {
    if x != [] {
      assert (x + y)[0] == x[0];
      assert (x + y)[1..] == x[1..] + y;
      NormalizeNameAppend(x[1..], y);
    } else {
      assert x + y == y;
    }
  }

  /** A key normalises to itself. */
  lemma {:induction false} NormalizeKey(s: string)
    requires IsKey(s)
    ensures NormalizeName(s) == s
    decreases |s|
  {
    if s != [] {
      NormalizeKey(s[1..]);
    }
  }

  /** Normalising twice is normalising once. */
  lemma NormalizeNameIdempotent(name: string)
    ensures NormalizeName(NormalizeName(name)) == NormalizeName(name)
  {
    NormalizeKey(NormalizeName(name));
  }

  // ---------------------------------------------------------------------------
  // Loading players

  /** `lines.filter(Boolean)`: the lines that are not empty. */
  function NonEmptyLines(lines: seq<string>): (r: seq<string>)
    ensures |r| <= |lines|
    ensures forall i :: 0 <= i < |r| ==> r[i] != [] && r[i] in lines
    decreases |lines|
  {
    if lines == [] then []
    else if lines[0] == [] then NonEmptyLines(lines[1..])
    else [lines[0]] + NonEmptyLines(lines[1..])
  }

  /** A single line is kept exactly when it is not empty. */
  lemma NonEmptyLinesOne(line: string)
    ensures NonEmptyLines([line]) == if line == [] then [] else [line]
  {
    assert [line][1..] == [];
  }

  /** Filtering a concatenation filters each part and keeps their order. */
  lemma {:induction false} NonEmptyLinesAppend(xs: seq<string>, ys: seq<string>)
    ensures NonEmptyLines(xs + ys) == NonEmptyLines(xs) + NonEmptyLines(ys)
    decreases |xs|
  {
    if xs == [] {
      assert xs + ys == ys;
    } else {
      assert (xs + ys)[0] == xs[0];
      assert (xs + ys)[1..] == xs[1..] + ys;
      NonEmptyLinesAppend(xs[1..], ys);
    }
  }

  /** Nothing is left after the filter exactly when every line is empty. */
  lemma {:induction false} NonEmptyLinesNone(lines: seq<string>)
    ensures NonEmptyLines(lines) == [] <==> forall i :: 0 <= i < |lines| ==> lines[i] == []
    decreases |lines|
  {
    if lines != [] {
      NonEmptyLinesNone(lines[1..]);
      if forall i :: 0 <= i < |lines| ==> lines[i] == [] {
        assert forall i :: 0 <= i < |lines| - 1 ==> lines[1..][i] == lines[i + 1];
      }
      if forall i :: 0 <= i < |lines| - 1 ==> lines[1..][i] == [] {
        assert forall i :: 1 <= i < |lines| ==> lines[i] == lines[1..][i - 1];
      }
    }
  }

  /** `p._key`, or "" when the record has none. */
  function KeyOf(p: Record): string {
    Field(p, "_key").GetOr("")
  }

  /**
   * The record a CSV row yields: each header set to its trimmed cell ("" past the end of the
   * row), then `_key` set to the normalised `Name` field ("" when there is none).
   */
  function PlayerRecord(headers: seq<string>, line: string): (p: Record)
    ensures "_key" in p && IsKey(KeyOf(p))
  {
    var rec := RowRecord(headers, Text.Split(line, ','));
    rec["_key" := NormalizeName(Field(rec, "Name").GetOr(""))]
  }

  /**
   * A player record has exactly the header names and `_key` as fields; `_key` holds the
   * normalised name, and every other header holds the trimmed cell under its last occurrence.
   */
  lemma PlayerRecordFields(headers: seq<string>, line: string)
    ensures var p, cols := PlayerRecord(headers, line), Text.Split(line, ',');
            && p.Keys == (set h | h in headers) + {"_key"}
            && KeyOf(p) == NormalizeName(Field(RowRecord(headers, cols), "Name").GetOr(""))
            && IsKey(KeyOf(p))
            && forall i :: 0 <= i < |headers| && headers[i] != "_key" && headers[i] !in headers[i + 1..] ==>
                 p[headers[i]] == if i < |cols| then Text.Trim(cols[i]) else ""
  {
    var cols := Text.Split(line, ',');
    RowRecordKeys(headers, cols);
    RowRecordValues(headers, cols);
  }

  /**
   * The CSV load of `handleCSVUpload`: split into lines, drop the empty ones, take the
   * trimmed cells of the first as headers and turn every later line into a player record.
   * With no line left, `lines[0]` is undefined and the load fails (None): the player list
   * stays as it was.
   */
  method ParsePlayers(text: string) returns (r: Option<seq<Record>>)
    ensures var lines := NonEmptyLines(Text.Split(text, '\n'));
            && (r.None? <==> lines == [])
            && (r.Some? ==>
                  && |r.value| == |lines| - 1
                  && forall i :: 0 <= i < |r.value| ==> r.value[i] == PlayerRecord(Headers(lines[0]), lines[i + 1]))
  {
    var lines := NonEmptyLines(Text.Split(text, '\n'));
    if lines == [] {
      return None;
    }
    var headers := Headers(lines[0]);
    var parsed: seq<Record> := [];
    for i := 1 to |lines|
      invariant |parsed| == i - 1
      invariant forall k :: 0 <= k < i - 1 ==> parsed[k] == PlayerRecord(headers, lines[k + 1])
    {
      var cols := Text.Split(lines[i], ',');
      var obj := FillRecord(headers, cols);
      obj := obj["_key" := NormalizeName(Field(obj, "Name").GetOr(""))];
      parsed := parsed + [obj];
    }
    r := Some(parsed);
  }

  /** The load fails exactly on text made of line breaks only (the empty text among it). */
  lemma ParseFailsOnBlankText(text: string)
    ensures NonEmptyLines(Text.Split(text, '\n')) == [] <==> forall i :: 0 <= i < |text| ==> text[i] == '\n'
  {
    NonEmptyLinesNone(Text.Split(text, '\n'));
    Text.SplitAllEmpty(text, '\n');
  }

  // ---------------------------------------------------------------------------
  // The player index

  /** `playerIndex`: every record with a non-empty key, stored under its key, in list order. */
  function PlayerIndex(players: seq<Record>): (index: map<string, Record>)
    ensures forall k :: k in index ==> k != "" && KeyOf(index[k]) == k && index[k] in players
    decreases |players|
  {
    if players == [] then map[]
    else
      var p := players[|players| - 1];
      var index := PlayerIndex(players[..|players| - 1]);
      if KeyOf(p) != "" then index[KeyOf(p) := p] else index
  }

  /** The index holds exactly the non-empty keys of the records. */
  lemma {:induction false} PlayerIndexKeys(players: seq<Record>)
    ensures PlayerIndex(players).Keys == set i | 0 <= i < |players| && KeyOf(players[i]) != "" :: KeyOf(players[i])
    decreases |players|
  {
    if players != [] {
      var n := |players| - 1;
      PlayerIndexKeys(players[..n]);
      var prefix := players[..n];
      assert forall i :: 0 <= i < n ==> prefix[i] == players[i];
    }
  }

  /** A key stands for the last record that carries it: a later duplicate replaces an earlier one. */
  lemma {:induction false} PlayerIndexLast(players: seq<Record>, i: nat)
    requires i < |players| && KeyOf(players[i]) != ""
    requires forall j :: i < j < |players| ==> KeyOf(players[j]) != KeyOf(players[i])
    ensures KeyOf(players[i]) in PlayerIndex(players)
    ensures PlayerIndex(players)[KeyOf(players[i])] == players[i]
    decreases |players|
  {
    var n := |players| - 1;
    var prefix := players[..n];
    var last := players[n];
    assert PlayerIndex(players)
        == if KeyOf(last) != "" then PlayerIndex(prefix)[KeyOf(last) := last] else PlayerIndex(prefix);
    if i < n {
      assert prefix[i] == players[i];
      assert forall j :: i < j < n ==> prefix[j] == players[j];
      PlayerIndexLast(prefix, i);
      assert KeyOf(last) != KeyOf(players[i]);
    }
  }

  /** Builds the index by writing each keyed record in turn, as the source's loop does. */
  method BuildIndex(players: seq<Record>) returns (index: map<string, Record>)
    ensures index == PlayerIndex(players)
  {
    index := map[];
    for i := 0 to |players|
      invariant index == PlayerIndex(players[..i])
    {
      assert players[..i + 1][..i] == players[..i];
      var p := players[i];
      if KeyOf(p) != "" {
        index := index[KeyOf(p) := p];
      }
    }
    assert players[..|players|] == players;
  }

  // ---------------------------------------------------------------------------
  // Rosters

  predicate NoDuplicates(roster: seq<string>) {
    forall i, j :: 0 <= i < j < |roster| ==> roster[i] != roster[j]
  }

  /** Every key of the roster stands for a player in the index. */
  predicate Resolves(index: map<string, Record>, roster: seq<string>) {
    forall i :: 0 <= i < |roster| ==> roster[i] in index
  }

  /**
   * `addPlayer(name)`: the name's key is appended when it stands for a player and is not on
   * the roster yet; otherwise the roster is left as it is.
   */
  function AddPlayer(index: map<string, Record>, roster: seq<string>, name: string): (r: seq<string>)
    ensures var key := NormalizeName(name);
            && (key !in index || key in roster ==> r == roster)
            && (key in index && key !in roster ==> r == roster + [key])
    ensures NoDuplicates(roster) ==> NoDuplicates(r)
    ensures Resolves(index, roster) ==> Resolves(index, r)
  {
    var key := NormalizeName(name);
    if key !in index then roster
    else if key in roster then roster
    else roster + [key]
  }

  /**
   * `addPlayer` as written: the index is a plain object, so looking up "constructor" finds
   * the object's inherited constructor, which is truthy, although no player has that key.
   */
  function AddPlayerAsWritten(index: map<string, Record>, roster: seq<string>, name: string): (r: seq<string>)
    ensures var key := NormalizeName(name);
            && (key != CONSTRUCTOR ==> r == AddPlayer(index, roster, name))
            && (key == CONSTRUCTOR && key !in roster ==> r == roster + [key])
  {
    var key := NormalizeName(name);
    if key !in index && key != CONSTRUCTOR then roster
    else if key in roster then roster
    else roster + [key]
  }

  /**
   * With no players loaded, a name whose key is "constructor" is added to a roster as
   * written, which then holds a key that stands for no player; the corrected rule adds nothing.
   */
  lemma ConstructorKeyAdded(name: string)
    requires NormalizeName(name) == CONSTRUCTOR
    ensures AddPlayerAsWritten(map[], [], name) == [CONSTRUCTOR]
    ensures !Resolves(map[], AddPlayerAsWritten(map[], [], name))
    ensures AddPlayer(map[], [], name) == []
  {
    var none: map<string, Record> := map[];
    var r := AddPlayerAsWritten(none, [], name);
    assert r[0] !in none;
  }

  const CONSTRUCTOR: string := "constructor"

  /** Typing "Constructor" (or "constructor") gives the key "constructor". */
  lemma ConstructorKey()
    ensures NormalizeName("constructor") == CONSTRUCTOR
  {
    assert IsKey(CONSTRUCTOR);
    NormalizeKey(CONSTRUCTOR);
  }

  // ---------------------------------------------------------------------------
  // Scoring a team

  /** `scoreTeam(team)`: a total per category and the salary sum. */
  datatype TeamScore = TeamScore(totals: map<Category, real>, salary: real)

  /** What one player adds to a category: `num(p[cat])` times the category's weight. */
  function Contribution(p: Record, c: Category, playoffFocus: bool): real {
    Numbers.Num(Field(p, c.Name())) * Weight(c, playoffFocus)
  }

  /** The weighted total of a category over the roster keys that stand for a player. */
  function CategoryTotal(index: map<string, Record>, team: seq<string>, c: Category, playoffFocus: bool): real
    decreases |team|
  {
    if team == [] then 0.0
    else
      var key := team[|team| - 1];
      CategoryTotal(index, team[..|team| - 1], c, playoffFocus)
        + (if key in index then Contribution(index[key], c, playoffFocus) else 0.0)
  }

  /** The sum of `num(p.AAV)` over the roster keys that stand for a player. */
  function TeamSalary(index: map<string, Record>, team: seq<string>): real
    decreases |team|
  {
    if team == [] then 0.0
    else
      var key := team[|team| - 1];
      TeamSalary(index, team[..|team| - 1]) + (if key in index then Numbers.Num(Field(index[key], "AAV")) else 0.0)
  }

  /** Extending the roster by one key extends each total by that key's contribution. */
  lemma ScoreStep(index: map<string, Record>, team: seq<string>, i: nat, playoffFocus: bool)
    requires i < |team|
    ensures forall c: Category :: CategoryTotal(index, team[..i + 1], c, playoffFocus)
              == CategoryTotal(index, team[..i], c, playoffFocus)
                 + (if team[i] in index then Contribution(index[team[i]], c, playoffFocus) else 0.0)
    ensures TeamSalary(index, team[..i + 1])
              == TeamSalary(index, team[..i]) + (if team[i] in index then Numbers.Num(Field(index[team[i]], "AAV")) else 0.0)
  {
    assert team[..i + 1][..i] == team[..i];
  }

  /**
   * `scoreTeam(team)`: every category starts at 0; each key that stands for a player adds
   * `num(AAV)` to the salary and its weighted value to every category; other keys add nothing.
   */
  method ScoreTeam(index: map<string, Record>, team: seq<string>, playoffFocus: bool) returns (s: TeamScore)
    ensures forall c: Category :: c in s.totals && s.totals[c] == CategoryTotal(index, team, c, playoffFocus)
    ensures s.salary == TeamSalary(index, team)
  {
    var totals: map<Category, real> := map[];
    for j := 0 to |ALL_CATEGORIES|
      invariant forall c: Category :: CategoryIndex(c) < j ==> c in totals && totals[c] == 0.0
    {
      totals := totals[ALL_CATEGORIES[j] := 0.0];
    }
    var salary := 0.0;
    for i := 0 to |team|
      invariant forall c: Category :: c in totals && totals[c] == CategoryTotal(index, team[..i], c, playoffFocus)
      invariant salary == TeamSalary(index, team[..i])
    {
      ScoreStep(index, team, i, playoffFocus);
      var key := team[i];
      if key in index {
        var p := index[key];
        salary := salary + Numbers.Num(Field(p, "AAV"));
        totals := AddContributions(totals, p, playoffFocus);
      }
    }
    assert team[..|team|] == team;
    s := TeamScore(totals, salary);
  }

  /** Adds one player's weighted value to the running total of every category. */
  method AddContributions(totals: map<Category, real>, p: Record, playoffFocus: bool) returns (t: map<Category, real>)
    requires forall c: Category :: c in totals
    ensures forall c: Category :: c in t && t[c] == totals[c] + Contribution(p, c, playoffFocus)
  {
    t := totals;
    for j := 0 to |ALL_CATEGORIES|
      invariant forall c: Category :: c in t
      invariant forall k :: 0 <= k < |ALL_CATEGORIES| ==>
                  t[ALL_CATEGORIES[k]] == totals[ALL_CATEGORIES[k]]
                    + (if k < j then Contribution(p, ALL_CATEGORIES[k], playoffFocus) else 0.0)
    {
      var cat := ALL_CATEGORIES[j];
      t := t[cat := t[cat] + Contribution(p, cat, playoffFocus)];
    }
    forall c: Category ensures t[c] == totals[c] + Contribution(p, c, playoffFocus) {
      var k := CategoryIndex(c);
    }
  }

  /** The position of a category in the category list. */
  function CategoryIndex(c: Category): (k: nat)
    ensures k < |ALL_CATEGORIES| && ALL_CATEGORIES[k] == c
    ensures forall l :: 0 <= l < |ALL_CATEGORIES| && ALL_CATEGORIES[l] == c ==> l == k
  {
    match c
    case G => 0     case A => 1     case PTS => 2   case BLK => 3   case FOW => 4
    case HIT => 5   case SOG => 6   case STP => 7   case Tk => 8    case GAA => 9
    case SvPct => 10 case SHO => 11 case W => 12    case SV => 13   case GA => 14
  }

  /** Adding a key to the end of a roster adds that key's contribution to every total. */
  lemma CategoryTotalAppend(index: map<string, Record>, team: seq<string>, key: string, playoffFocus: bool)
    ensures forall c: Category :: CategoryTotal(index, team + [key], c, playoffFocus)
              == CategoryTotal(index, team, c, playoffFocus) + (if key in index then Contribution(index[key], c, playoffFocus) else 0.0)
    ensures TeamSalary(index, team + [key])
              == TeamSalary(index, team) + (if key in index then Numbers.Num(Field(index[key], "AAV")) else 0.0)
  {
    assert (team + [key])[..|team|] == team;
  }

  /** The keys of a roster that stand for a player, in roster order. */
  function Resolved(index: map<string, Record>, team: seq<string>): (r: seq<string>)
    ensures Resolves(index, r)
    ensures |r| <= |team|
    decreases |team|
  {
    if team == [] then []
    else
      var key := team[|team| - 1];
      Resolved(index, team[..|team| - 1]) + (if key in index then [key] else [])
  }

  /** Keys that stand for no player add nothing: a roster totals as its resolved keys do. */
  lemma {:induction false} UnresolvedKeysIgnored(index: map<string, Record>, team: seq<string>, c: Category, playoffFocus: bool)
    ensures CategoryTotal(index, team, c, playoffFocus) == CategoryTotal(index, Resolved(index, team), c, playoffFocus)
    decreases |team|
  {
    if team != [] {
      var n := |team| - 1;
      var before := Resolved(index, team[..n]);
      UnresolvedKeysIgnored(index, team[..n], c, playoffFocus);
      if team[n] in index {
        assert Resolved(index, team) == before + [team[n]];
        CategoryTotalAppend(index, before, team[n], playoffFocus);
      } else {
        assert Resolved(index, team) == before;
      }
    }
  }

  /** Keys that stand for no player add no salary. */
  lemma {:induction false} UnresolvedSalaryIgnored(index: map<string, Record>, team: seq<string>)
    ensures TeamSalary(index, team) == TeamSalary(index, Resolved(index, team))
    decreases |team|
  {
    if team != [] {
      var n := |team| - 1;
      var before := Resolved(index, team[..n]);
      UnresolvedSalaryIgnored(index, team[..n]);
      if team[n] in index {
        assert Resolved(index, team) == before + [team[n]];
        CategoryTotalAppend(index, before, team[n], false);
      } else {
        assert Resolved(index, team) == before;
      }
    }
  }

  /** Under playoff focus one player's contribution is scaled by the category's playoff weight. */
  lemma ContributionScaling(p: Record, c: Category)
    ensures Contribution(p, c, true) == PlayoffWeight(c) * Contribution(p, c, false)
  {
    FocusScaling(p, c, true, false);
  }

  /** `ContributionScaling` with the two settings of the focus flag passed in as variables. */
  lemma FocusScaling(p: Record, c: Category, on: bool, off: bool)
    requires on && !off
    ensures Contribution(p, c, on) == PlayoffWeight(c) * Contribution(p, c, off)
  {
    ContributionValue(p, c, on);
    ContributionValue(p, c, off);
    WeightScaling(Numbers.Num(Field(p, c.Name())), Contribution(p, c, on), Contribution(p, c, off), c, on, off);
  }

  /** A contribution is the number read from the category's field times the category's weight. */
  lemma ContributionValue(p: Record, c: Category, playoffFocus: bool)
    ensures Contribution(p, c, playoffFocus) == Numbers.Num(Field(p, c.Name())) * Weight(c, playoffFocus)
  {
  }

  /** A value weighted under playoff focus is its regular weighting times the playoff weight. */
  lemma WeightScaling(base: real, playoff: real, regular: real, c: Category, on: bool, off: bool)
    requires on && !off
    requires playoff == base * Weight(c, on) && regular == base * Weight(c, off)
    ensures playoff == PlayoffWeight(c) * regular
  {
  }

  /**
   * Under playoff focus every category total is the regular-season total times the category's
   * playoff weight.
   */
  lemma {:induction false} PlayoffScaling(index: map<string, Record>, team: seq<string>, c: Category)
    ensures CategoryTotal(index, team, c, true) == PlayoffWeight(c) * CategoryTotal(index, team, c, false)
    decreases |team|
  {
    if team != [] {
      var n := |team| - 1;
      var w := PlayoffWeight(c);
      var regular := CategoryTotal(index, team[..n], c, false);
      PlayoffScaling(index, team[..n], c);
      if team[n] in index {
        var x := Contribution(index[team[n]], c, false);
        ContributionScaling(index[team[n]], c);
        assert w * (regular + x) == w * regular + w * x;
      }
    }
  }

  /** A roster none of whose keys stands for a player totals 0 in every category and in salary. */
  lemma {:induction false} NoKnownPlayers(index: map<string, Record>, team: seq<string>, playoffFocus: bool)
    requires forall i :: 0 <= i < |team| ==> team[i] !in index
    ensures forall c: Category :: CategoryTotal(index, team, c, playoffFocus) == 0.0
    ensures TeamSalary(index, team) == 0.0
    decreases |team|
  {
    if team != [] {
      var n := |team| - 1;
      assert team[n] !in index;
      NoKnownPlayers(index, team[..n], playoffFocus);
    }
  }

  /** With no negative AAV in the index, a roster's salary is never negative. */
  lemma {:induction false} SalaryNonNegative(index: map<string, Record>, team: seq<string>)
    requires forall k :: k in index ==> Numbers.Num(Field(index[k], "AAV")) >= 0.0
    ensures TeamSalary(index, team) >= 0.0
    decreases |team|
  {
    if team != [] {
      SalaryNonNegative(index, team[..|team| - 1]);
    }
  }

  // ---------------------------------------------------------------------------
  // Category winners

  /** The three teams of the trade. */
  datatype TeamId = TeamA | TeamB | TeamC {
    /** The team's letter. */
    function Label(): string {
      match this
      case TeamA => "A"
      case TeamB => "B"
      case TeamC => "C"
    }

    /** The team's place in the order A, B, C. */
    function Index(): nat {
      match this
      case TeamA => 0
      case TeamB => 1
      case TeamC => 2
    }
  }

  /** One value per team, like the source's `{ A, B, C }` objects. */
  datatype PerTeam<T> = PerTeam(a: T, b: T, c: T) {
    function Get(t: TeamId): T {
      match t
      case TeamA => a
      case TeamB => b
      case TeamC => c
    }

    /** The same values with the one of team `t` replaced by `v`. */
    function Set(t: TeamId, v: T): (r: PerTeam<T>)
      ensures r.Get(t) == v
      ensures forall u: TeamId :: u != t ==> r.Get(u) == Get(u)
    {
      match t
      case TeamA => this.(a := v)
      case TeamB => this.(b := v)
      case TeamC => this.(c := v)
    }
  }

  /** `Math.max(...Object.values(values))`: the largest of the three values. */
  function MaxValue(v: PerTeam<real>): (m: real)
    ensures forall t: TeamId :: v.Get(t) <= m
    ensures v.Get(TeamA) == m || v.Get(TeamB) == m || v.Get(TeamC) == m
  {
    var ab := if v.a >= v.b then v.a else v.b;
    if ab >= v.c then ab else v.c
  }

  /**
   * `winners`: the teams whose value equals the maximum, kept in the order A, B, C; there is
   * always at least one.
   */
  function Winners(v: PerTeam<real>): (w: seq<TeamId>)
    ensures w != []
    ensures forall t: TeamId :: t in w <==> forall u: TeamId :: v.Get(u) <= v.Get(t)
    ensures forall i, j :: 0 <= i < j < |w| ==> w[i].Index() < w[j].Index()
  {
    var m := MaxValue(v);
    (if v.a == m then [TeamA] else [])
      + (if v.b == m then [TeamB] else [])
      + (if v.c == m then [TeamC] else [])
  }

  /** A team is the only winner exactly when its value is strictly above the other two. */
  lemma SoleWinner(v: PerTeam<real>, t: TeamId)
    ensures Winners(v) == [t] <==> forall u: TeamId :: u != t ==> v.Get(u) < v.Get(t)
  {
    if forall u: TeamId :: u != t ==> v.Get(u) < v.Get(t) {
      assert v.Get(TeamA) == v.a && v.Get(TeamB) == v.b && v.Get(TeamC) == v.c;
      assert MaxValue(v) == v.Get(t);
    }
  }

  /** Every team score holds a total for every category, as `scoreTeam` guarantees. */
  predicate Complete(scores: PerTeam<TeamScore>) {
    forall t: TeamId, c: Category :: c in scores.Get(t).totals
  }

  /** The three totals of one category. */
  function CategoryValues(scores: PerTeam<TeamScore>, c: Category): PerTeam<real>
    requires Complete(scores)
  {
    PerTeam(scores.Get(TeamA).totals[c], scores.Get(TeamB).totals[c], scores.Get(TeamC).totals[c])
  }

  /** One entry of `categoryResults`. */
  datatype CategoryResult = CategoryResult(cat: Category, winners: seq<TeamId>)

  /**
   * `categoryResults`: for every category, in list order, the teams that no other team beats
   * in that category.
   */
  function CategoryResults(scores: PerTeam<TeamScore>): (r: seq<CategoryResult>)
    requires Complete(scores)
    ensures |r| == |ALL_CATEGORIES|
    ensures forall i :: 0 <= i < |r| ==>
              && r[i].cat == ALL_CATEGORIES[i]
              && r[i].winners != []
              && forall t: TeamId :: t in r[i].winners <==>
                   forall u: TeamId :: scores.Get(u).totals[r[i].cat] <= scores.Get(t).totals[r[i].cat]
  {
    seq(|ALL_CATEGORIES|, i requires 0 <= i < |ALL_CATEGORIES| =>
      CategoryResult(ALL_CATEGORIES[i], Winners(CategoryValues(scores, ALL_CATEGORIES[i]))))
  }

  // ---------------------------------------------------------------------------
  // Tally and verdict

  /** The number of results whose only winner is `t`. */
  function SoleWins(results: seq<CategoryResult>, t: TeamId): nat
    decreases |results|
  {
    if results == [] then 0
    else
      var n := |results| - 1;
      SoleWins(results[..n], t) + (if results[n].winners == [t] then 1 else 0)
  }

  /** A category counts for at most one team, so the three tallies add up to at most the results. */
  lemma {:induction false} SoleWinsBound(results: seq<CategoryResult>)
    ensures SoleWins(results, TeamA) + SoleWins(results, TeamB) + SoleWins(results, TeamC) <= |results|
    decreases |results|
  {
    if results != [] {
      SoleWinsBound(results[..|results| - 1]);
    }
  }

  /** `winCounts`: every result with a single winner adds one to that team's count. */
  method WinCounts(results: seq<CategoryResult>) returns (counts: PerTeam<nat>)
    ensures counts == Tally(results)
  {
    counts := PerTeam(0, 0, 0);
    for i := 0 to |results|
      invariant forall t: TeamId :: counts.Get(t) == SoleWins(results[..i], t)
    {
      assert results[..i + 1][..i] == results[..i];
      var r := results[i];
      if |r.winners| == 1 {
        assert r.winners == [r.winners[0]];
        counts := counts.Set(r.winners[0], counts.Get(r.winners[0]) + 1);
      }
    }
    assert results[..|results|] == results;
    assert counts.Get(TeamA) == counts.a && counts.Get(TeamB) == counts.b && counts.Get(TeamC) == counts.c;
  }

  /** The tallies of sole category wins, one per team. */
  function Tally(results: seq<CategoryResult>): (counts: PerTeam<nat>)
    ensures forall t: TeamId :: counts.Get(t) == SoleWins(results, t)
    ensures counts.a + counts.b + counts.c <= |results|
  {
    SoleWinsBound(results);
    PerTeam(SoleWins(results, TeamA), SoleWins(results, TeamB), SoleWins(results, TeamC))
  }

  /** `Object.entries(winCounts)`: the teams in the order A, B, C with their counts. */
  function Entries(counts: PerTeam<nat>): seq<(TeamId, nat)> {
    [(TeamA, counts.a), (TeamB, counts.b), (TeamC, counts.c)]
  }

  /** The entries are ordered by count, largest first. */
  predicate SortedDesc(s: seq<(TeamId, nat)>) {
    forall i, j :: 0 <= i < j < |s| ==> s[i].1 >= s[j].1
  }

  /** Puts `e` into a list sorted largest first, after every entry whose count is not smaller. */
  function InsertDesc(e: (TeamId, nat), s: seq<(TeamId, nat)>): (r: seq<(TeamId, nat)>)
    ensures |r| == |s| + 1
    decreases |s|
  {
    if s == [] || s[0].1 < e.1 then [e] + s
    else [s[0]] + InsertDesc(e, s[1..])
  }

  /**
   * `sort((a, b) => b[1] - a[1])`: the entries ordered by count, largest first. The sort of
   * JavaScript is stable, so entries with equal counts keep their order; inserting each entry
   * after the equal ones already placed gives that same order.
   */
  function SortDesc(s: seq<(TeamId, nat)>): (r: seq<(TeamId, nat)>)
    ensures |r| == |s|
    decreases |s|
  {
    if s == [] then []
    else InsertDesc(s[|s| - 1], SortDesc(s[..|s| - 1]))
  }

  /** Inserting adds the entry and loses nothing. */
  lemma {:induction false} InsertDescPermutes(e: (TeamId, nat), s: seq<(TeamId, nat)>)
    ensures multiset(InsertDesc(e, s)) == multiset(s) + multiset{e}
    decreases |s|
  {
    if s != [] && s[0].1 >= e.1 {
      InsertDescPermutes(e, s[1..]);
      assert s == [s[0]] + s[1..];
    }
  }

  /** Sorting reorders the entries and nothing else. */
  lemma {:induction false} SortDescPermutes(s: seq<(TeamId, nat)>)
    ensures multiset(SortDesc(s)) == multiset(s)
    decreases |s|
  {
    if s != [] {
      var n := |s| - 1;
      SortDescPermutes(s[..n]);
      InsertDescPermutes(s[n], SortDesc(s[..n]));
      assert s == s[..n] + [s[n]];
    }
  }

  /** Inserting an entry below a bound into entries below that bound keeps them all below it. */
  lemma {:induction false} InsertDescBelow(e: (TeamId, nat), s: seq<(TeamId, nat)>, bound: nat)
    requires e.1 <= bound
    requires forall i :: 0 <= i < |s| ==> s[i].1 <= bound
    ensures forall i :: 0 <= i < |s| + 1 ==> InsertDesc(e, s)[i].1 <= bound
    decreases |s|
  {
    if s != [] && s[0].1 >= e.1 {
      InsertDescBelow(e, s[1..], bound);
      var t := InsertDesc(e, s[1..]);
      assert InsertDesc(e, s) == [s[0]] + t;
    }
  }

  /** Inserting into a list sorted largest first keeps it sorted. */
  lemma {:induction false} InsertDescSorted(e: (TeamId, nat), s: seq<(TeamId, nat)>)
    requires SortedDesc(s)
    ensures SortedDesc(InsertDesc(e, s))
    decreases |s|
  {
    if s != [] && s[0].1 >= e.1 {
      var t := InsertDesc(e, s[1..]);
      assert SortedDesc(s[1..]) by {
        forall i, j | 0 <= i < j < |s| - 1 ensures s[1..][i].1 >= s[1..][j].1 {
          assert s[1..][i] == s[i + 1] && s[1..][j] == s[j + 1];
        }
      }
      InsertDescSorted(e, s[1..]);
      assert forall i :: 0 <= i < |s| - 1 ==> s[1..][i].1 <= s[0].1 by {
        forall i | 0 <= i < |s| - 1 ensures s[1..][i].1 <= s[0].1 {
          assert s[1..][i] == s[i + 1];
        }
      }
      InsertDescBelow(e, s[1..], s[0].1);
      var r := [s[0]] + t;
      assert InsertDesc(e, s) == r;
      forall i, j | 0 <= i < j < |r| ensures r[i].1 >= r[j].1 {
        if i > 0 {
          assert r[i] == t[i - 1] && r[j] == t[j - 1];
        } else {
          assert r[j] == t[j - 1];
        }
      }
    }
  }

  /** Sorting gives a list ordered by count, largest first. */
  lemma {:induction false} SortDescSorted(s: seq<(TeamId, nat)>)
    ensures SortedDesc(SortDesc(s))
    decreases |s|
  {
    if s != [] {
      var n := |s| - 1;
      SortDescSorted(s[..n]);
      InsertDescSorted(s[n], SortDesc(s[..n]));
    }
  }

  /** The first entry after sorting is the first entry of the input with the largest count. */
  lemma {:induction false} SortHead(s: seq<(TeamId, nat)>, k: nat)
    requires k < |s|
    requires forall j :: 0 <= j < |s| ==> s[j].1 <= s[k].1
    requires forall j :: 0 <= j < k ==> s[j].1 < s[k].1
    ensures SortDesc(s)[0] == s[k]
    decreases |s|
  {
    var n := |s| - 1;
    var rest := SortDesc(s[..n]);
    assert SortDesc(s) == InsertDesc(s[n], rest);
    if k < n {
      SortHead(s[..n], k);
      assert rest[0] == s[k];
      assert InsertDesc(s[n], rest) == [rest[0]] + InsertDesc(s[n], rest[1..]);
    } else if rest != [] {
      SortDescPermutes(s[..n]);
      assert rest[0] in multiset(rest);
      assert rest[0] in multiset(s[..n]);
      var j :| 0 <= j < n && s[..n][j] == rest[0];
      assert s[..n][j] == s[j];
      assert InsertDesc(s[n], rest) == [s[n]] + rest;
    }
  }

  /**
   * The ranking written out case by case: counts decide the order, and equal counts keep
   * the order A, B, C.
   */
  function Ranked(counts: PerTeam<nat>): (r: seq<(TeamId, nat)>)
    ensures |r| == 3
  {
    var a, b, c := (TeamA, counts.a), (TeamB, counts.b), (TeamC, counts.c);
    if counts.a >= counts.b then
      if counts.b >= counts.c then [a, b, c]
      else if counts.a >= counts.c then [a, c, b]
      else [c, a, b]
    else
      if counts.a >= counts.c then [b, a, c]
      else if counts.b >= counts.c then [b, c, a]
      else [c, b, a]
  }

  /** Sorting the entries gives the ranking written out case by case. */
  lemma RankedOrder(counts: PerTeam<nat>)
    ensures SortDesc(Entries(counts)) == Ranked(counts)
  {
    var e := Entries(counts);
    var first: seq<(TeamId, nat)> := [e[0]];
    var none: seq<(TeamId, nat)> := [];
    assert e[..1] == first && first[..0] == none;
    assert SortDesc(e[..1]) == first;
    assert e[..2] == [e[0], e[1]] && e[..2][..1] == first;
    var two := InsertDesc(e[1], first);
    assert SortDesc(e[..2]) == two;
    assert two == if e[0].1 < e[1].1 then [e[1], e[0]] else [e[0], e[1]] by {
      assert first[1..] == none;
      assert InsertDesc(e[1], none) == [e[1]];
    }
    assert SortDesc(e) == InsertDesc(e[2], two) by {
      assert e[..2] == e[..|e| - 1];
    }
    InsertIntoTwo(e[2], two[0], two[1]);
    assert two == [two[0], two[1]];
  }

  /** Where an entry lands in a sorted list of two. */
  lemma InsertIntoTwo(e: (TeamId, nat), x: (TeamId, nat), y: (TeamId, nat))
    ensures InsertDesc(e, [x, y]) ==
              if x.1 < e.1 then [e, x, y]
              else if y.1 < e.1 then [x, e, y]
              else [x, y, e]
  {
    var last: seq<(TeamId, nat)> := [y];
    var none: seq<(TeamId, nat)> := [];
    assert [x, y][1..] == last && last[1..] == none;
    assert InsertDesc(e, none) == [e];
    assert InsertDesc(e, last) == if y.1 < e.1 then [e, y] else [y, e];
  }

  /** The outcome of the trade. */
  datatype Verdict = Balanced | Gains(team: TeamId)

  /** `verdict`: balanced when the two best tallies are equal, otherwise the best team gains. */
  function VerdictOf(counts: PerTeam<nat>): (v: Verdict)
    ensures v.Gains? ==> counts.Get(v.team) >= 1
  {
    RankedOrder(counts);
    VerdictFrom(SortDesc(Entries(counts)))
  }

  /** The verdict read off a ranking: a tie between its first two entries, or its first team. */
  function VerdictFrom(ranked: seq<(TeamId, nat)>): (v: Verdict)
    requires |ranked| >= 2
    ensures v.Gains? ==> v.team == ranked[0].0
    ensures SortedDesc(ranked) ==> (v.Gains? <==> forall i :: 1 <= i < |ranked| ==> ranked[i].1 < ranked[0].1)
  {
    if ranked[0].1 == ranked[1].1 then Balanced else Gains(ranked[0].0)
  }

  /** The sentence the verdict panel shows. */
  function VerdictText(v: Verdict): (s: string)
    ensures v.Balanced? <==> s == "Trade is balanced"
    ensures v.Gains? ==> s == "Team " + v.team.Label() + " gains the most value"
  {
    match v
    case Balanced => "Trade is balanced"
    case Gains(t) => "Team " + t.Label() + " gains the most value"
  }

  /** Team `t` has a tally strictly above both other teams. */
  predicate Leads(counts: PerTeam<nat>, t: TeamId) {
    forall u: TeamId :: u != t ==> counts.Get(u) < counts.Get(t)
  }

  /** `Leads` spelt out for each team. */
  lemma LeadsCases(counts: PerTeam<nat>)
    ensures Leads(counts, TeamA) <==> counts.b < counts.a && counts.c < counts.a
    ensures Leads(counts, TeamB) <==> counts.a < counts.b && counts.c < counts.b
    ensures Leads(counts, TeamC) <==> counts.a < counts.c && counts.b < counts.c
  {
    assert counts.Get(TeamA) == counts.a && counts.Get(TeamB) == counts.b && counts.Get(TeamC) == counts.c;
  }

  /**
   * The trade is balanced exactly when two teams share the largest tally, and otherwise the
   * team it names has a tally strictly above the other two.
   */
  lemma VerdictMeaning(counts: PerTeam<nat>)
    ensures VerdictOf(counts) == Balanced <==>
              || (counts.a == counts.b && counts.a >= counts.c)
              || (counts.a == counts.c && counts.a >= counts.b)
              || (counts.b == counts.c && counts.b >= counts.a)
    ensures forall t: TeamId :: VerdictOf(counts) == Gains(t) <==> Leads(counts, t)
  {
    RankedOrder(counts);
    RankedVerdict(counts);
  }

  /** `VerdictMeaning` for the ranking written out. */
  lemma RankedVerdict(counts: PerTeam<nat>)
    ensures VerdictFrom(Ranked(counts)) == Balanced <==>
              || (counts.a == counts.b && counts.a >= counts.c)
              || (counts.a == counts.c && counts.a >= counts.b)
              || (counts.b == counts.c && counts.b >= counts.a)
    ensures forall t: TeamId :: VerdictFrom(Ranked(counts)) == Gains(t) <==> Leads(counts, t)
  {
    LeadsCases(counts);
  }

  // ---------------------------------------------------------------------------
  // Salary cap

  /** The league's salary cap. */
  const SALARY_CAP: real := 117600000.0

  /** The "Over Cap" flag: the team's salary is strictly above the cap. */
  predicate OverCap(s: TeamScore)
    ensures OverCap(s) <==> s.salary > 117600000.0
  {
    s.salary > SALARY_CAP
  }

  /**
   * A team over the cap stays over it when a player is added, as long as no salary in the
   * index is negative.
   */
  lemma OverCapStays(index: map<string, Record>, team: seq<string>, name: string)
    requires forall k :: k in index ==> Numbers.Num(Field(index[k], "AAV")) >= 0.0
    requires TeamSalary(index, team) > SALARY_CAP
    ensures TeamSalary(index, AddPlayer(index, team, name)) > SALARY_CAP
  {
    var key := NormalizeName(name);
    if key in index && key !in team {
      CategoryTotalAppend(index, team, key, false);
      assert Numbers.Num(Field(index[key], "AAV")) >= 0.0;
    }
  }

  // ---------------------------------------------------------------------------
  // The whole comparison

  /** The score `scoreTeam` gives a roster: every category total and the salary. */
  function TeamScoreOf(index: map<string, Record>, team: seq<string>, playoffFocus: bool): TeamScore {
    TeamScore(map c: Category | c in ALL_CATEGORIES :: CategoryTotal(index, team, c, playoffFocus), TeamSalary(index, team))
  }

  /** The scores of the three rosters. */
  function ScoresOf(index: map<string, Record>, rosters: PerTeam<seq<string>>, playoffFocus: bool): PerTeam<TeamScore> {
    PerTeam(TeamScoreOf(index, rosters.a, playoffFocus),
            TeamScoreOf(index, rosters.b, playoffFocus),
            TeamScoreOf(index, rosters.c, playoffFocus))
  }

  /** Scores hold a total for every category. */
  lemma ScoresComplete(index: map<string, Record>, rosters: PerTeam<seq<string>>, playoffFocus: bool)
    ensures Complete(ScoresOf(index, rosters, playoffFocus))
  {
    forall t: TeamId, c: Category ensures c in ScoresOf(index, rosters, playoffFocus).Get(t).totals {
      AllCategoriesListed(c);
    }
  }

  /**
   * One pass of the analyser over three rosters: each is scored, the categories are decided,
   * the sole wins are tallied into a verdict, and each team is flagged when over the cap.
   */
  method CompareTeams(index: map<string, Record>, rosters: PerTeam<seq<string>>, playoffFocus: bool)
    returns (verdict: Verdict, overCap: PerTeam<bool>)
    ensures Complete(ScoresOf(index, rosters, playoffFocus))
    ensures verdict == VerdictOf(Tally(CategoryResults(ScoresOf(index, rosters, playoffFocus))))
    ensures overCap.a <==> TeamSalary(index, rosters.a) > SALARY_CAP
    ensures overCap.b <==> TeamSalary(index, rosters.b) > SALARY_CAP
    ensures overCap.c <==> TeamSalary(index, rosters.c) > SALARY_CAP
  {
    var scores := ScoreTeams(index, rosters, playoffFocus);
    ScoresComplete(index, rosters, playoffFocus);
    var results := CategoryResults(scores);
    var counts := WinCounts(results);
    verdict := VerdictOf(counts);
    overCap := PerTeam(OverCap(scores.a), OverCap(scores.b), OverCap(scores.c));
  }

  /** `teams`: the three rosters scored. */
  method ScoreTeams(index: map<string, Record>, rosters: PerTeam<seq<string>>, playoffFocus: bool)
    returns (scores: PerTeam<TeamScore>)
    ensures scores == ScoresOf(index, rosters, playoffFocus)
  {
    var a := ScoreTeam(index, rosters.a, playoffFocus);
    SameScore(a, index, rosters.a, playoffFocus);
    var b := ScoreTeam(index, rosters.b, playoffFocus);
    SameScore(b, index, rosters.b, playoffFocus);
    var c := ScoreTeam(index, rosters.c, playoffFocus);
    SameScore(c, index, rosters.c, playoffFocus);
    scores := PerTeam(a, b, c);
  }

  /** A score holding every category total of a roster is the roster's score. */
  lemma SameScore(s: TeamScore, index: map<string, Record>, team: seq<string>, playoffFocus: bool)
    requires forall c: Category :: c in s.totals && s.totals[c] == CategoryTotal(index, team, c, playoffFocus)
    requires s.salary == TeamSalary(index, team)
    ensures s == TeamScoreOf(index, team, playoffFocus)
  {
    var spec := TeamScoreOf(index, team, playoffFocus).totals;
    forall c: Category ensures c in spec {
      AllCategoriesListed(c);
    }
    assert s.totals == spec;
  }
}
