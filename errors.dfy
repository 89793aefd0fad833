/** The error taxonomy: contract error codes, contextual errors, their messages and the mapping between them. */
module Errors {
  import opened Wrappers

  /** The error codes a contract call can return. `NoCluesAdded` is returned by activation but was left out
      of the declared enumeration; it is added here as the fourteenth code. */
  datatype HuntErrorCode =
    | HuntNotFound
    | ClueNotFound
    | InvalidHuntStatus
    | PlayerNotRegistered
    | ClueAlreadyCompleted
    | InvalidAnswer
    | HuntNotActive
    | Unauthorized
    | InsufficientRewardPool
    | DuplicateRegistration
    | InvalidTitle
    | InvalidDescription
    | InvalidAddress
    | NoCluesAdded

  /** The `u32` a code is represented by; the thirteen declared codes are 1..13 in declaration order. */
  function Discriminant(c: HuntErrorCode): (n: nat)
    ensures 1 <= n <= 14
    ensures n == 14 <==> c == NoCluesAdded
  {
    match c
    case HuntNotFound => 1
    case ClueNotFound => 2
    case InvalidHuntStatus => 3
    case PlayerNotRegistered => 4
    case ClueAlreadyCompleted => 5
    case InvalidAnswer => 6
    case HuntNotActive => 7
    case Unauthorized => 8
    case InsufficientRewardPool => 9
    case DuplicateRegistration => 10
    case InvalidTitle => 11
    case InvalidDescription => 12
    case InvalidAddress => 13
    case NoCluesAdded => 14
  }

  /** The code a `u32` stands for, if any: the inverse of `Discriminant`. */
  function FromDiscriminant(n: nat): (r: Option<HuntErrorCode>)
    ensures r.Some? <==> 1 <= n <= 14
  {
    match n
    case 1 => Some(HuntErrorCode.HuntNotFound)
    case 2 => Some(HuntErrorCode.ClueNotFound)
    case 3 => Some(HuntErrorCode.InvalidHuntStatus)
    case 4 => Some(HuntErrorCode.PlayerNotRegistered)
    case 5 => Some(HuntErrorCode.ClueAlreadyCompleted)
    case 6 => Some(HuntErrorCode.InvalidAnswer)
    case 7 => Some(HuntErrorCode.HuntNotActive)
    case 8 => Some(HuntErrorCode.Unauthorized)
    case 9 => Some(HuntErrorCode.InsufficientRewardPool)
    case 10 => Some(HuntErrorCode.DuplicateRegistration)
    case 11 => Some(HuntErrorCode.InvalidTitle)
    case 12 => Some(HuntErrorCode.InvalidDescription)
    case 13 => Some(HuntErrorCode.InvalidAddress)
    case 14 => Some(HuntErrorCode.NoCluesAdded)
    case _ => None
  }

  lemma DiscriminantRoundTrip(c: HuntErrorCode)
    ensures FromDiscriminant(Discriminant(c)) == Some(c)
  {
  }

  lemma FromDiscriminantRoundTrip(n: nat)
    requires 1 <= n <= 14
    ensures Discriminant(FromDiscriminant(n).value) == n
  {
  }

  /** Distinct codes have distinct discriminants. */
  lemma DiscriminantsDistinct(c: HuntErrorCode, d: HuntErrorCode)
    requires c != d
    ensures Discriminant(c) != Discriminant(d)
  {
    DiscriminantRoundTrip(c);
    DiscriminantRoundTrip(d);
  }

  /** Errors with context, as produced inside the contract. */
  datatype HuntError =
    | HuntNotFound(hunt_id: nat)
    | ClueNotFound(hunt_id: nat)
    | InvalidHuntStatus
    | PlayerNotRegistered(hunt_id: nat)
    | ClueAlreadyCompleted(hunt_id: nat)
    | InvalidAnswer
    | HuntNotActive(hunt_id: nat)
    | Unauthorized
    | InsufficientRewardPool(required: int, available: int)
    | DuplicateRegistration(hunt_id: nat)
    | InvalidTitle(reason: string)
    | InvalidDescription(reason: string)
    | InvalidAddress

  /** The name a code is declared with. */
  function CodeName(c: HuntErrorCode): string
  {
    match c
    case HuntNotFound => "HuntNotFound"
    case ClueNotFound => "ClueNotFound"
    case InvalidHuntStatus => "InvalidHuntStatus"
    case PlayerNotRegistered => "PlayerNotRegistered"
    case ClueAlreadyCompleted => "ClueAlreadyCompleted"
    case InvalidAnswer => "InvalidAnswer"
    case HuntNotActive => "HuntNotActive"
    case Unauthorized => "Unauthorized"
    case InsufficientRewardPool => "InsufficientRewardPool"
    case DuplicateRegistration => "DuplicateRegistration"
    case InvalidTitle => "InvalidTitle"
    case InvalidDescription => "InvalidDescription"
    case InvalidAddress => "InvalidAddress"
    case NoCluesAdded => "NoCluesAdded"
  }

  /** The name an error variant is declared with. */
  function VariantName(e: HuntError): string
  {
    match e
    case HuntNotFound(_) => "HuntNotFound"
    case ClueNotFound(_) => "ClueNotFound"
    case InvalidHuntStatus => "InvalidHuntStatus"
    case PlayerNotRegistered(_) => "PlayerNotRegistered"
    case ClueAlreadyCompleted(_) => "ClueAlreadyCompleted"
    case InvalidAnswer => "InvalidAnswer"
    case HuntNotActive(_) => "HuntNotActive"
    case Unauthorized => "Unauthorized"
    case InsufficientRewardPool(_, _) => "InsufficientRewardPool"
    case DuplicateRegistration(_) => "DuplicateRegistration"
    case InvalidTitle(_) => "InvalidTitle"
    case InvalidDescription(_) => "InvalidDescription"
    case InvalidAddress => "InvalidAddress"
  }

  /** `From<HuntError> for HuntErrorCode`: the code of the same name, whatever the payload. */
  function ToCode(e: HuntError): (c: HuntErrorCode)
    ensures CodeName(c) == VariantName(e)
    ensures c != HuntErrorCode.NoCluesAdded
  {
    match e
    case HuntNotFound(_) => HuntErrorCode.HuntNotFound
    case ClueNotFound(_) => HuntErrorCode.ClueNotFound
    case InvalidHuntStatus => HuntErrorCode.InvalidHuntStatus
    case PlayerNotRegistered(_) => HuntErrorCode.PlayerNotRegistered
    case ClueAlreadyCompleted(_) => HuntErrorCode.ClueAlreadyCompleted
    case InvalidAnswer => HuntErrorCode.InvalidAnswer
    case HuntNotActive(_) => HuntErrorCode.HuntNotActive
    case Unauthorized => HuntErrorCode.Unauthorized
    case InsufficientRewardPool(_, _) => HuntErrorCode.InsufficientRewardPool
    case DuplicateRegistration(_) => HuntErrorCode.DuplicateRegistration
    case InvalidTitle(_) => HuntErrorCode.InvalidTitle
    case InvalidDescription(_) => HuntErrorCode.InvalidDescription
    case InvalidAddress => HuntErrorCode.InvalidAddress
  }

  /** Code names identify codes, so `ToCode` is determined by names and payloads never matter. */
  lemma CodeNamesDistinct(c: HuntErrorCode, d: HuntErrorCode)
    requires CodeName(c) == CodeName(d)
    ensures c == d
  {
  }

  /** Every declared code is the image of some error; none maps to `NoCluesAdded`. */
  lemma ToCodeCoversDeclaredCodes(c: HuntErrorCode)
    requires c != HuntErrorCode.NoCluesAdded
    ensures exists e :: ToCode(e) == c
  {
    var e :=
      match c
      case HuntNotFound => HuntError.HuntNotFound(0)
      case ClueNotFound => HuntError.ClueNotFound(0)
      case InvalidHuntStatus => HuntError.InvalidHuntStatus
      case PlayerNotRegistered => HuntError.PlayerNotRegistered(0)
      case ClueAlreadyCompleted => HuntError.ClueAlreadyCompleted(0)
      case InvalidAnswer => HuntError.InvalidAnswer
      case HuntNotActive => HuntError.HuntNotActive(0)
      case Unauthorized => HuntError.Unauthorized
      case InsufficientRewardPool => HuntError.InsufficientRewardPool(0, 0)
      case DuplicateRegistration => HuntError.DuplicateRegistration(0)
      case InvalidTitle => HuntError.InvalidTitle("")
      case InvalidDescription => HuntError.InvalidDescription("")
      case _ => HuntError.InvalidAddress;
    assert ToCode(e) == c;
  }

  // ----- Decimal rendering of integers, as Rust's `{}` formats them -----

  function Digit(d: nat): (ch: char)
    requires d < 10
    ensures '0' <= ch <= '9'
  {
    (('0' as int) + d) as char
  }

  predicate IsDigits(s: string)
  {
    forall i :: 0 <= i < |s| ==> '0' <= s[i] <= '9'
  }

  /** The decimal digits of `n`, most significant first, without leading zeros. */
  function Decimal(n: nat): (s: string)
    ensures |s| >= 1 && IsDigits(s)
    ensures |s| > 1 ==> s[0] != '0'
  {
    if n < 10 then [Digit(n)] else Decimal(n / 10) + [Digit(n % 10)]
  }

  /** The value of a string of decimal digits: the partner of `Decimal`. */
  function ParseDecimal(s: string): nat
    requires IsDigits(s)
  {
    if s == [] then 0
    else ParseDecimal(s[..|s| - 1]) * 10 + ((s[|s| - 1] as int) - ('0' as int))
  }

  lemma {:induction false} DecimalRoundTrip(n: nat)
    ensures ParseDecimal(Decimal(n)) == n
  {
    var s := Decimal(n);
    if n >= 10 {
      DecimalRoundTrip(n / 10);
      assert s[..|s| - 1] == Decimal(n / 10);
    }
  }

  /** Different numbers render differently. */
  lemma DecimalInjective(a: nat, b: nat)
    requires Decimal(a) == Decimal(b)
    ensures a == b
  {
    DecimalRoundTrip(a);
    DecimalRoundTrip(b);
  }

  /** A signed integer in decimal, with a leading '-' when negative. */
  function SignedDecimal(i: int): (s: string)
    ensures |s| >= 1
    ensures i < 0 <==> s[0] == '-'
    ensures i >= 0 ==> IsDigits(s) && ParseDecimal(s) == i
    ensures i < 0 ==> IsDigits(s[1..]) && ParseDecimal(s[1..]) == -i
  {
    if i < 0 then
      DecimalRoundTrip(-i);
      assert ("-" + Decimal(-i))[1..] == Decimal(-i);
      "-" + Decimal(-i)
    else
      DecimalRoundTrip(i);
      Decimal(i)
  }

  /** `t` is the final part of `m`. */
  predicate EndsWith(m: string, t: string)
  {
    |t| <= |m| && m[|m| - |t|..] == t
  }

  /** An error's `Display` text split into its fixed lead-in and its final argument (empty if none). */
  function MessageParts(e: HuntError, debug: string -> string): (string, string)
  {
    match e
    case HuntNotFound(id) => ("Hunt not found: ID ", Decimal(id))
    case ClueNotFound(id) => ("Clue not found for hunt ", Decimal(id))
    case InvalidHuntStatus => ("Invalid hunt status", "")
    case PlayerNotRegistered(id) => ("Player not registered for hunt ", Decimal(id))
    case ClueAlreadyCompleted(id) => ("Clue already completed for hunt ", Decimal(id))
    case InvalidAnswer => ("Invalid answer submitted", "")
    case HuntNotActive(id) => ("Hunt not active: ID ", Decimal(id))
    case Unauthorized => ("Unauthorized access", "")
    case InsufficientRewardPool(required, available) =>
      ("Insufficient reward pool: required " + SignedDecimal(required) + ", available ", SignedDecimal(available))
    case DuplicateRegistration(id) => ("Duplicate registration for hunt ", Decimal(id))
    case InvalidTitle(reason) => ("Invalid title: ", debug(reason))
    case InvalidDescription(reason) => ("Invalid description: ", debug(reason))
    case InvalidAddress => ("Invalid address", "")
  }

  /** The `Display` message of an error. `debug` renders a host string the way `{:?}` does.
      Every message ends with its last argument: the hunt ID, the rendered reason, or the available amount. */
  function Message(e: HuntError, debug: string -> string): (m: string)
    ensures CarriesHuntId(e) ==> EndsWith(m, Decimal(e.hunt_id))
    ensures (e.InvalidTitle? || e.InvalidDescription?) ==> EndsWith(m, debug(e.reason))
    ensures e.InsufficientRewardPool? ==> EndsWith(m, SignedDecimal(e.available))
  {
    var parts := MessageParts(e, debug);
    assert (parts.0 + parts.1)[|parts.0|..] == parts.1;
    parts.0 + parts.1
  }

  /** The variants that carry a hunt ID. */
  predicate CarriesHuntId(e: HuntError)
  {
    e.HuntNotFound? || e.ClueNotFound? || e.PlayerNotRegistered? || e.ClueAlreadyCompleted?
    || e.HuntNotActive? || e.DuplicateRegistration?
  }

  /** Of two errors of the same kind, the message tells which hunt it is about. */
  lemma {:induction false} MessageIdentifiesHunt(e: HuntError, f: HuntError, debug: string -> string)
    requires CarriesHuntId(e) && VariantName(e) == VariantName(f)
    requires Message(e, debug) == Message(f, debug)
    ensures e == f
  {
    var prefix := Message(e, debug)[..|Message(e, debug)| - |Decimal(e.hunt_id)|];
    assert Message(e, debug) == prefix + Decimal(e.hunt_id);
    assert Message(f, debug) == prefix + Decimal(f.hunt_id);
    assert Decimal(e.hunt_id) == Message(e, debug)[|prefix|..];
    assert Decimal(f.hunt_id) == Message(f, debug)[|prefix|..];
    DecimalInjective(e.hunt_id, f.hunt_id);
  }

  /** The renderings of the numbers that occur in the contract's message tests. */
  lemma DecimalExamples()
    ensures Decimal(42) == "42" && Decimal(10) == "10"
    ensures Decimal(500) == "500" && Decimal(10000) == "10000"
  {
    assert Decimal(4) == "4";
    assert Decimal(1) == "1";
    assert Decimal(10) == "10";
    assert Decimal(5) == "5";
    assert Decimal(50) == "50";
    assert Decimal(100) == "100";
    assert Decimal(1000) == "1000";
  }

  /** The messages the contract's own unit tests expect. */
  lemma MessageExamples(debug: string -> string)
    ensures Message(HuntError.HuntNotFound(42), debug) == "Hunt not found: ID 42"
    ensures Message(HuntError.ClueNotFound(10), debug) == "Clue not found for hunt 10"
    ensures Message(HuntError.InvalidHuntStatus, debug) == "Invalid hunt status"
    ensures Message(HuntError.Unauthorized, debug) == "Unauthorized access"
    ensures Message(HuntError.InvalidAnswer, debug) == "Invalid answer submitted"
    ensures Message(HuntError.InvalidAddress, debug) == "Invalid address"
    ensures ToCode(HuntError.HuntNotFound(42)) == HuntErrorCode.HuntNotFound
  {
    DecimalExamples();
  }

  /** The reward-pool message of the contract's unit tests. */
  lemma RewardPoolMessageExample(debug: string -> string)
    ensures Message(HuntError.InsufficientRewardPool(10000, 500), debug)
         == "Insufficient reward pool: required 10000, available 500"
  {
    DecimalExamples();
    assert SignedDecimal(10000) == "10000";
    assert SignedDecimal(500) == "500";
  }
}
