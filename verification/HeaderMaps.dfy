/** HTTP header maps: names in lower case, each with its values in order. */
module HeaderMaps {
  import opened Wrappers

  type Headers = map<string, seq<string>>

  /** `to_str` reads visible ASCII, spaces and tabs. */
  predicate Readable(value: string) {
    forall c :: c in value ==> c == '\t' || ' ' <= c <= '~'
  }

  /** `from_str` accepts anything but control characters other than tab. */
  predicate ValueOk(value: string) {
    forall c :: c in value ==> c == '\t' || (' ' <= c && c != '\U{7f}')
  }

  /** The first value of a name. */
  function Get(h: Headers, name: string): Option<string> {
    if name in h && h[name] != [] then Some(h[name][0]) else None
  }

  /** Every character is a tab, or none of the control characters. */
  predicate Settable(value: string) {
    forall i :: 0 <= i < |value| ==> value[i] as int == 9 || (32 <= value[i] as int && value[i] as int != 127)
  }

  /** By character codes: a tab, or 32 up to 126, is readable; all but control characters may be set. */
  lemma ValuesByCode(value: string)
    ensures Readable(value) <==> forall i :: 0 <= i < |value| ==> value[i] as int == 9 || 32 <= value[i] as int <= 126
    ensures ValueOk(value) <==> Settable(value)
  {
    forall i | 0 <= i < |value|
      ensures value[i] in value
    {
    }
  }

  /** The first value is the one at the front, when there is any. */
  lemma GetIsFirst(h: Headers, name: string, v: string)
    ensures Get(h, name) == Some(v) <==> name in h && |h[name]| > 0 && h[name][0] == v
  {
  }

  lemma ReadableIsOk(value: string)
    requires Readable(value)
    ensures ValueOk(value)
  {
  }

  class HeaderMap {
    var entries: Headers

    constructor (entries: Headers)
      ensures this.entries == entries
    {
      this.entries := entries;
    }

    /** Replaces every value of `name`. */
    method Insert(name: string, value: string)
      modifies this
      ensures entries == old(entries)[name := [value]]
    {
      entries := entries[name := [value]];
    }
  }
}
