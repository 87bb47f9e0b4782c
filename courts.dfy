/**
 * The code sets of the data model (`Court.COURT_TYPES`, `Case.CASE_TYPES`) and the court
 * record whose watermark the ingestion run advances.
 */
module Courts {
  import opened Wrappers

  /** `Court.COURT_TYPES` */
  datatype CourtType =
    | Supreme            // 'S'
    | Appeals            // 'A'
    | Multidistrict      // 'M', Judicial Panel on Multidistrict Litigation
    | FederalClaims      // 'F'
    | InternationalTrade // 'I'
    | District           // 'D'
    | Bankruptcy         // 'B'

  function CourtCode(t: CourtType): char {
    match t
    case Supreme => 'S'
    case Appeals => 'A'
    case Multidistrict => 'M'
    case FederalClaims => 'F'
    case InternationalTrade => 'I'
    case District => 'D'
    case Bankruptcy => 'B'
  }

  /** `Case.CASE_TYPES` */
  datatype CaseType =
    | Civil                // '1CV'
    | Criminal             // '2CR'
    | BankruptcyCase       // '3BK'
    | AppealCase           // '4AP'
    | MultidistrictCase    // '5MD'
    | Vaccine              // '6VC'
    | CongressionalRecord  // '7CG'

  function CaseCode(t: CaseType): string {
    match t
    case Civil => "1CV"
    case Criminal => "2CR"
    case BankruptcyCase => "3BK"
    case AppealCase => "4AP"
    case MultidistrictCase => "5MD"
    case Vaccine => "6VC"
    case CongressionalRecord => "7CG"
  }

  /**
   * A court row, as the ingestion commands see it: its id, its type and the watermark
   * `last_updated` (an instant on the court's clock, null until first set).
   */
  class Court {
    const id: nat
    const kind: CourtType
    var lastUpdated: Option<int>

    constructor (id: nat, kind: CourtType, lastUpdated: Option<int>)
      ensures this.id == id && this.kind == kind && this.lastUpdated == lastUpdated
    {
      this.id := id;
      this.kind := kind;
      this.lastUpdated := lastUpdated;
    }
  }
}
