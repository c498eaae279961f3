/** The JavaScript values that reach the memory pipeline, reduced to the
    distinctions its code makes: present or absent, truthy or falsy, a
    string or something else. */
module JsValues {

  datatype Option<T> = None | Some(value: T)

  /** A property read from untrusted structured model output, such as
      `item.name`: absent (`undefined` or `null`), a string, or any other
      value, of which only its truthiness matters. */
  datatype JsValue = Missing | Str(s: string) | Other(truthy: bool)

  /** JavaScript truthiness: `undefined`, `null` and `""` are falsy. */
  predicate Truthy(v: JsValue)
  {
    match v
    case Missing => false
    case Str(s) => s != ""
    case Other(b) => b
  }

  /** The user identity arrives as a header string, or not at all. */
  type UserId = string

  /** `if (!userId)` fails exactly for an absent or empty identity. */
  predicate HasUser(user: Option<UserId>)
  {
    user.Some? && user.value != ""
  }

  /** `if (originalMessage)`: an absent or empty message is falsy. */
  predicate HasMessage(message: Option<string>)
  {
    message.Some? && message.value != ""
  }
}
