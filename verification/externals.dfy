/**
 * The collaborators the twiml package calls but does not define, given as
 * function-valued parameters: libphonenumber, `net/url.Parse`, and
 * base64-encoded HMAC-SHA1. Nothing is assumed about them beyond their
 * signatures; every property proved in this model holds for all of them.
 */
module Externals {
  import opened Results

  /** A number as libphonenumber represents it after parsing. */
  datatype PhoneNumber = PhoneNumber(countryCode: nat, nationalNumber: nat)

  /** The three libphonenumber entry points the package uses. */
  datatype PhoneLib = PhoneLib(
    /** `libphonenumber.Parse(raw, region)`; `None` is a parse error. */
    parse: (string, string) -> Option<PhoneNumber>,
    /** `libphonenumber.IsValidNumber`. */
    isValid: PhoneNumber -> bool,
    /** `libphonenumber.Format(n, libphonenumber.E164)`. */
    formatE164: PhoneNumber -> string)

  /** A parsed `url.Userinfo`: a user name and an optional password. */
  datatype UserInfo = UserInfo(username: string, password: Option<string>)

  /**
   * The `url.URL` fields the package reads. `host` is `URL.Host` (it may
   * carry a port); `hostname` is what `URL.Hostname()` returns for it;
   * `user` is `None` when `URL.User` is nil.
   */
  datatype Url = Url(
    scheme: string,
    opaquePart: string,
    path: string,
    host: string,
    hostname: string,
    user: Option<UserInfo>)

  /**
   * Whether `URL.User.String()` is empty: a nil user, or an empty user name
   * with no password (escaping keeps empty strings empty and non-empty ones
   * non-empty).
   */
  predicate UserStringEmpty(user: Option<UserInfo>) {
    user.None? || (user.value.username == "" && user.value.password.None?)
  }

  /** `URL.User.Username()`, which is empty for a nil user. */
  function Username(user: Option<UserInfo>): string {
    if user.None? then "" else user.value.username
  }

  /** Everything outside the package that its core depends on. */
  datatype Env = Env(
    phone: PhoneLib,
    /** `url.Parse`; `None` is a parse error. */
    parseUrl: string -> Option<Url>,
    /** `base64.StdEncoding.EncodeToString(HMAC-SHA1(key, message))`. */
    sign: (string, string) -> string)
}
