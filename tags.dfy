/**
 * String-to-string maps with java.util.Map's put/remove semantics, as used by
 * AbstractWatchable.setInfo (the tag map) and Episode.setCast (the cast map):
 * a null value removes the key, any other value maps the key to it, and either
 * way the previous mapping (or null) is returned.
 */
module Tags {
  import opened Wrappers

  /** The new map and the value previously held under the key. */
  datatype Assigned = Assigned(entries: map<string, string>, previous: Option<string>)

  /** What Map.get returns: the mapping of `key`, or null. */
  function Lookup(m: map<string, string>, key: string): (r: Option<string>)
    ensures r.Some? <==> key in m
    ensures r.Some? ==> r.value == m[key]
  {
    if key in m then Some(m[key]) else None
  }

  /** `value == None` is Map.remove(key); `Some(v)` is Map.put(key, v). */
  function Assign(m: map<string, string>, key: string, value: Option<string>): (r: Assigned)
    ensures r.previous.Some? <==> key in m
    ensures r.previous.Some? ==> r.previous.value == m[key]
    ensures key in r.entries <==> value.Some?
    ensures value.Some? ==> r.entries[key] == value.value
    ensures forall k :: k != key ==> Lookup(r.entries, k) == Lookup(m, k)
  {
    var previous := Lookup(m, key);
    match value
    case None => Assigned(m - {key}, previous)
    case Some(v) => Assigned(m[key := v], previous)
  }

  /**
   * Assigning back what an assignment returned restores the map: the
   * returned previous value is exactly what is needed to undo it.
   */
  lemma AssignPreviousRestores(m: map<string, string>, key: string, value: Option<string>)
    ensures var a := Assign(m, key, value); Assign(a.entries, key, a.previous).entries == m
  {
    var a := Assign(m, key, value);
    var b := Assign(a.entries, key, a.previous);
    assert forall k :: k in b.entries <==> k in m by {
      forall k ensures k in b.entries <==> k in m {
        if k != key { assert Lookup(b.entries, k) == Lookup(a.entries, k) == Lookup(m, k); }
      }
    }
    forall k | k in m ensures b.entries[k] == m[k] {
      if k != key { assert Lookup(b.entries, k) == Lookup(a.entries, k) == Lookup(m, k); }
    }
  }

  /**
   * Map.get after put or remove: the assigned key yields the value given (or
   * null after a removal), every other key what it yielded before.
   */
  lemma LookupAfterAssign(m: map<string, string>, key: string, value: Option<string>, k: string)
    ensures Lookup(Assign(m, key, value).entries, k) == if k == key then value else Lookup(m, k)
  {
  }

  /**
   * Character.isWhitespace: the space, line and paragraph separators other
   * than the non-breaking ones, and the controls tab to carriage return and
   * file to unit separator.
   */
  predicate IsWhitespace(c: char)
  {
    || ('\t' <= c <= '\r') || ('\U{001C}' <= c <= ' ')
    || c == '\U{1680}' || ('\U{2000}' <= c <= '\U{2006}') || ('\U{2008}' <= c <= '\U{200A}')
    || c == '\U{2028}' || c == '\U{2029}' || c == '\U{205F}' || c == '\U{3000}'
  }

  /** String.isBlank: empty, or white space only. */
  predicate IsBlank(s: string)
  {
    forall i :: 0 <= i < |s| ==> IsWhitespace(s[i])
  }

  /**
   * The empty key is blank; a key is blank exactly when both of its parts
   * are; space and tab are blank; a letter and the no-break spaces U+00A0,
   * U+2007 and U+202F are not.
   */
  lemma BlankKeys(s: string, t: string)
    ensures IsBlank("")
    ensures IsBlank(s + t) <==> IsBlank(s) && IsBlank(t)
    ensures IsBlank(" ") && IsBlank("\t")
    ensures !IsBlank("a") && !IsBlank("\U{00A0}") && !IsBlank("\U{2007}") && !IsBlank("\U{202F}")
  {
    if IsBlank(s) && IsBlank(t) {
      forall i | 0 <= i < |s + t| ensures IsWhitespace((s + t)[i]) {
        if i < |s| { assert (s + t)[i] == s[i]; } else { assert (s + t)[i] == t[i - |s|]; }
      }
    }
    if IsBlank(s + t) {
      forall i | 0 <= i < |s| ensures IsWhitespace(s[i]) {
        assert (s + t)[i] == s[i];
      }
      forall i | 0 <= i < |t| ensures IsWhitespace(t[i]) {
        assert (s + t)[|s| + i] == t[i];
      }
    }
    assert "a"[0] == 'a' && "\U{00A0}"[0] == '\U{00A0}';
    assert "\U{2007}"[0] == '\U{2007}' && "\U{202F}"[0] == '\U{202F}';
  }
}
