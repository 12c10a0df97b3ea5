/**
 * The fantasy-hockey statistic categories and their weights, which both revisions of the
 * analyser define identically.
 */
module Categories {

  /** One statistic column. `SvPct` is the column headed "SV%". */
  datatype Category =
    | G | A | PTS | BLK | FOW | HIT | SOG | STP | Tk
    | GAA | SvPct | SHO | W | SV | GA
  {
    /** The CSV header the category is read from. */
    function Name(): string {
      match this
      case G => "G"       case A => "A"       case PTS => "PTS"
      case BLK => "BLK"   case FOW => "FOW"   case HIT => "HIT"
      case SOG => "SOG"   case STP => "STP"   case Tk => "Tk"
      case GAA => "GAA"   case SvPct => "SV%" case SHO => "SHO"
      case W => "W"       case SV => "SV"     case GA => "GA"
    }
  }

  const SKATER_CATEGORIES: seq<Category> := [G, A, PTS, BLK, FOW, HIT, SOG, STP, Tk]
  const GOALIE_CATEGORIES: seq<Category> := [GAA, SvPct, SHO, W, SV, GA]
  const ALL_CATEGORIES: seq<Category> := SKATER_CATEGORIES + GOALIE_CATEGORIES

  /** Every category is listed exactly once: nine skater ones, then six goalie ones. */
  lemma AllCategoriesListed(c: Category)
    ensures c in ALL_CATEGORIES
    ensures c in SKATER_CATEGORIES <==> c !in GOALIE_CATEGORIES
    ensures forall i, j :: 0 <= i < j < |ALL_CATEGORIES| ==> ALL_CATEGORIES[i] != ALL_CATEGORIES[j]
  {
  }

  /** The regular-season weight of a category (`CATEGORY_WEIGHTS`): 1 for every category. */
  function BaseWeight(c: Category): real {
    1.0
  }

  /**
   * The playoff multiplier of a category (`PLAYOFF_WEIGHTS`). The table has an entry for every
   * category and none is zero, so the `|| 1` fallback of the source never applies.
   */
  function PlayoffWeight(c: Category): (w: real)
    ensures 0.85 <= w <= 1.3
    ensures w == 1.0 <==> c == A || c == PTS
  {
    match c
    case G => 1.15    case A => 1.0     case PTS => 1.0
    case SOG => 0.85  case HIT => 0.85  case BLK => 0.85
    case FOW => 0.85  case STP => 1.25  case Tk => 1.1
    case W => 1.15    case SHO => 1.3   case SvPct => 1.1
    case GAA => 1.1   case SV => 0.85   case GA => 0.85
  }

  /** The weight a category's raw value is multiplied by, with or without playoff focus. */
  function Weight(c: Category, playoffFocus: bool): (w: real)
    ensures !playoffFocus ==> w == 1.0
    ensures playoffFocus ==> w == PlayoffWeight(c) && 0.85 <= w <= 1.3
  {
    BaseWeight(c) * (if playoffFocus then PlayoffWeight(c) else 1.0)
  }
}
