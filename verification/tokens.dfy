/** The Whoosh analysis token as the filters see it. */
module Tokens {
  import opened Wrappers

  /** A Whoosh `Token`: its text, position and character span, plus the
      `ent_type` attribute the named-entity filter may set (absent until then). */
  datatype Token = Token(text: string, pos: nat, startChar: nat, endChar: nat, entType: Option<string>)

  /** The key the duplicate filter compares tokens by. */
  function TextOf(t: Token): string {
    t.text
  }
}
