/**
 * The admin-password check behind the admin modal's confirm button. The
 * configured secret is either a SHA-256 digest written as 64 hex digits or a
 * plaintext password; an empty one means no admin password is configured.
 */
module Admin {
  import opened Wrappers
  import opened Strings
  import opened Items

  predicate IsHexDigit(c: char) {
    ('0' <= c <= '9') || ('a' <= c <= 'f') || ('A' <= c <= 'F')
  }

  /** The configured secret matches `/^[0-9a-fA-F]{64}$/`. */
  predicate IsHex64(s: string) {
    |s| == 64 && forall i | 0 <= i < |s| :: IsHexDigit(s[i])
  }

  /** What a confirm click ends in. */
  datatype AuthOutcome =
    | Authorized
    | NotConfigured
    | WrongPassword
    /** The digest could not be computed ("Erro ao validar senha"). */
    | ValidationError

  /**
   * The confirm handler on the trimmed password `pass` and trimmed secret
   * `cfg`. `digest` stands for `sha256Hex`: the lower-case hex digest of its
   * input, or `None` when the digest call throws.
   */
  function CheckTrimmed(pass: string, cfg: string, digest: string -> Option<string>): (r: AuthOutcome)
    ensures r == NotConfigured <==> cfg == ""
    ensures r == ValidationError <==> IsHex64(cfg) && digest(pass).None?
    ensures r == Authorized ==> if IsHex64(cfg) then digest(pass) == Some(ToLower(cfg)) else pass == cfg
  {
    if cfg == "" then NotConfigured
    else if IsHex64(cfg) then
      match digest(pass)
      case None => ValidationError
      case Some(hex) => if hex == ToLower(cfg) then Authorized else WrongPassword
    else if pass == cfg then Authorized
    else WrongPassword
  }

  /** The confirm handler: both the typed password and the configured secret are trimmed first. */
  function CheckAdmin(input: string, secret: string, digest: string -> Option<string>): (r: AuthOutcome)
    ensures r == NotConfigured <==> Trim(secret) == ""
    ensures r == ValidationError <==> IsHex64(Trim(secret)) && digest(Trim(input)).None?
    ensures r == Authorized ==>
      if IsHex64(Trim(secret)) then digest(Trim(input)) == Some(ToLower(Trim(secret)))
      else Trim(input) == Trim(secret)
  {
    CheckTrimmed(Trim(input), Trim(secret), digest)
  }

  /** A secret that is empty or only whitespace never lets anyone in. */
  lemma BlankSecretNeverAuthorizes(input: string, secret: string, digest: string -> Option<string>)
    requires AllWhitespace(secret)
    ensures CheckAdmin(input, secret, digest) == NotConfigured
  {
    TrimOfPadded(secret, "", "");
    assert secret + "" + "" == secret;
  }

  /** A digest secret admits exactly the passwords whose digest is the secret, in any letter case. */
  lemma DigestSecret(input: string, secret: string, digest: string -> Option<string>)
    requires IsHex64(Trim(secret))
    ensures CheckAdmin(input, secret, digest) == Authorized <==> digest(Trim(input)) == Some(ToLower(Trim(secret)))
    ensures CheckAdmin(input, secret, digest) == CheckAdmin(input, ToUpper(secret), digest)
  {
    TrimToUpperCommute(secret);
    DigestCaseInsensitive(Trim(input), Trim(secret), digest);
  }

  /** On trimmed values: upper-casing a digest secret changes nothing. */
  lemma DigestCaseInsensitive(pass: string, cfg: string, digest: string -> Option<string>)
    requires IsHex64(cfg)
    ensures CheckTrimmed(pass, cfg, digest) == CheckTrimmed(pass, ToUpper(cfg), digest)
  {
    UpperHex64(cfg);
    LowerOfUpper(cfg);
  }

  lemma UpperHex64(cfg: string)
    requires IsHex64(cfg)
    ensures IsHex64(ToUpper(cfg))
  {
    forall i | 0 <= i < |cfg| ensures IsHexDigit(ToUpper(cfg)[i]) {
      assert IsHexDigit(cfg[i]);
    }
  }

  /** Any other non-blank secret is a plaintext password compared exactly, after trimming both sides. */
  lemma PlaintextSecret(input: string, secret: string, digest: string -> Option<string>)
    requires Trim(secret) != "" && !IsHex64(Trim(secret))
    ensures CheckAdmin(input, secret, digest) == Authorized <==> Trim(input) == Trim(secret)
    ensures CheckAdmin(input, secret, digest) != Authorized ==> CheckAdmin(input, secret, digest) == WrongPassword
  {
  }

  /** Whitespace typed around the password, or stored around the secret, makes no difference. */
  lemma PaddingIgnored(pre: string, input: string, post: string, pre': string, secret: string, post': string,
                       digest: string -> Option<string>)
    requires AllWhitespace(pre) && AllWhitespace(post) && AllWhitespace(pre') && AllWhitespace(post')
    ensures CheckAdmin(pre + input + post, pre' + secret + post', digest) == CheckAdmin(input, secret, digest)
  {
    TrimIgnoresPadding(pre, input, post);
    TrimIgnoresPadding(pre', secret, post');
  }

  // ---- the modal's error line ----

  /** What the modal's error line shows: nothing, or one of its three texts. */
  datatype ModalMessage =
    | NoMessage
    /** "Senha de administrador não configurada" */
    | NotConfiguredText
    /** "Senha incorreta" */
    | IncorrectText
    /** "Erro ao validar senha" */
    | ValidationErrorText

  /**
   * `openAdminModal(!adminPasswordHash)`: the modal opens with the
   * "not configured" text exactly when the secret is the empty string; a
   * secret of spaces is not trimmed here and opens a blank modal.
   */
  function OpenMessage(secret: string): (r: ModalMessage)
    ensures r == NotConfiguredText <==> secret == ""
    ensures r == NoMessage || r == NotConfiguredText
  {
    if secret == "" then NotConfiguredText else NoMessage
  }

  /**
   * The error line a confirm leaves behind, as written: the not-configured
   * branch sets its text but leaves `ok` false, so the `if (ok) … else`
   * that follows replaces it with "Senha incorreta".
   */
  function ConfirmMessage(o: AuthOutcome): (r: ModalMessage)
    ensures r == NoMessage <==> o == Authorized
    ensures r == ValidationErrorText <==> o == ValidationError
    ensures r != NotConfiguredText
  {
    match o
    case Authorized => NoMessage
    case NotConfigured => IncorrectText
    case WrongPassword => IncorrectText
    case ValidationError => ValidationErrorText
  }

  /**
   * As written, confirming against a blank secret says the password is wrong,
   * and a secret of spaces never shows the "not configured" text at all.
   */
  lemma BlankSecretReadsAsWrongPassword(input: string, secret: string, digest: string -> Option<string>)
    requires AllWhitespace(secret)
    ensures ConfirmMessage(CheckAdmin(input, secret, digest)) == IncorrectText
    ensures secret != "" ==> OpenMessage(secret) == NoMessage
  {
    BlankSecretNeverAuthorizes(input, secret, digest);
  }

  /** The error line the confirm handler evidently means to leave: each failure keeps its own text. */
  function IntendedConfirmMessage(o: AuthOutcome): (r: ModalMessage)
    ensures r == NoMessage <==> o == Authorized
    ensures r == NotConfiguredText <==> o == NotConfigured
    ensures r == IncorrectText <==> o == WrongPassword
    ensures r == ValidationErrorText <==> o == ValidationError
  {
    match o
    case Authorized => NoMessage
    case NotConfigured => NotConfiguredText
    case WrongPassword => IncorrectText
    case ValidationError => ValidationErrorText
  }

  /** With the intended message, a confirm says "not configured" exactly when the trimmed secret is empty. */
  lemma IntendedNamesMissingSecret(input: string, secret: string, digest: string -> Option<string>)
    ensures IntendedConfirmMessage(CheckAdmin(input, secret, digest)) == NotConfiguredText <==> Trim(secret) == ""
    ensures AllWhitespace(secret) ==> IntendedConfirmMessage(CheckAdmin(input, secret, digest)) == NotConfiguredText
  {
    if AllWhitespace(secret) {
      BlankSecretNeverAuthorizes(input, secret, digest);
    }
  }
}
