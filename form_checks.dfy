/**
 * The field checks of the entry form. Each failed check reports its own error;
 * the form is accepted only when none fails. The wallet amount is taken as
 * the number the page has already parsed.
 */
module FormChecks {
  import opened Text

  datatype FormInput = FormInput(
    playerId: string,
    playerName: string,
    region: string,
    membership: string,
    walletAmount: real,
    agreeTerms: bool)

  datatype FormError =
    | PlayerIdError
    | PlayerNameError
    | RegionError
    | MembershipError
    | WalletAmountError
    | AgreeTermsError

  /** `\d` in a JavaScript regular expression: an ASCII digit. */
  predicate IsDigit(c: char) {
    '0' <= c <= '9'
  }

  /** The pattern `^\d{6,12}$`: six to twelve digits and nothing else. */
  predicate IsPlayerId(s: string)
    ensures IsPlayerId(s) ==> Unpadded(s) && s != ""
  {
    6 <= |s| <= 12 && forall i :: 0 <= i < |s| ==> IsDigit(s[i])
  }

  /** The error a single check reports: none when it passes, its own error when it fails. */
  function CheckError(passes: bool, e: FormError): (r: set<FormError>)
    ensures e in r <==> !passes
    ensures forall other :: other in r ==> other == e
  {
    if passes then {} else {e}
  }

  /** The errors `validateForm` reports; player id and name are checked after trimming, region and membership as given. */
  function FormErrors(form: FormInput): set<FormError> {
    CheckError(IsPlayerId(Trim(form.playerId)), PlayerIdError)
    + CheckError(Trim(form.playerName) != "", PlayerNameError)
    + CheckError(form.region != "", RegionError)
    + CheckError(form.membership != "", MembershipError)
    + CheckError(form.walletAmount >= 0.0, WalletAmountError)
    + CheckError(form.agreeTerms, AgreeTermsError)
  }

  /** `validateForm`: the form is accepted exactly when each of the six checks passes. */
  predicate ValidateForm(form: FormInput)
    ensures ValidateForm(form) <==>
      && IsPlayerId(Trim(form.playerId)) && Trim(form.playerName) != ""
      && form.region != "" && form.membership != ""
      && form.walletAmount >= 0.0 && form.agreeTerms
  {
    FormErrors(form) == {}
  }

  /** The player-id error is reported exactly when the trimmed id is not six to twelve digits. */
  lemma PlayerIdErrorIff(form: FormInput)
    ensures PlayerIdError in FormErrors(form) <==> !IsPlayerId(Trim(form.playerId))
  {
  }

  /** The player-name error is reported exactly when the trimmed name is empty. */
  lemma PlayerNameErrorIff(form: FormInput)
    ensures PlayerNameError in FormErrors(form) <==> Trim(form.playerName) == ""
  {
  }

  /** An id shorter than six or longer than twelve characters once trimmed is rejected, digits or not. */
  lemma PlayerIdLengthRejected(form: FormInput)
    requires |Trim(form.playerId)| < 6 || |Trim(form.playerId)| > 12
    ensures PlayerIdError in FormErrors(form)
    ensures !ValidateForm(form)
  {
  }

  /** A well-formed player id is accepted however much whitespace surrounds it. */
  lemma PaddedPlayerIdAccepted(form: FormInput, pre: string, id: string, post: string)
    requires IsPlayerId(id)
    requires AllWhitespace(pre) && AllWhitespace(post)
    requires form.playerId == pre + id + post
    ensures PlayerIdError !in FormErrors(form)
  {
    TrimPadded(pre, id, post);
    WellFormedIdHasNoError(form);
  }

  /** A trimmed id of six to twelve digits passes its check; the last step of `PaddedPlayerIdAccepted`. */
  lemma WellFormedIdHasNoError(form: FormInput)
    requires IsPlayerId(Trim(form.playerId))
    ensures PlayerIdError !in FormErrors(form)
  {
  }

  /** An id with any character other than a digit, once trimmed, is rejected. */
  lemma NonDigitPlayerIdRejected(form: FormInput, k: nat)
    requires k < |Trim(form.playerId)| && !IsDigit(Trim(form.playerId)[k])
    ensures PlayerIdError in FormErrors(form)
    ensures !ValidateForm(form)
  {
  }

  /** A name made only of whitespace is rejected as missing. */
  lemma BlankNameRejected(form: FormInput)
    requires AllWhitespace(form.playerName)
    ensures PlayerNameError in FormErrors(form)
    ensures !ValidateForm(form)
  {
    TrimPadded(form.playerName, "", "");
    assert form.playerName + "" + "" == form.playerName;
  }
}
