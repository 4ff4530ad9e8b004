/** Where a batch execution's output is stored, and when its address is accepted as a dataset's. */
module Keys {
  import opened Wrappers

  function StripRight(s: string): string {
    if s != "" && s[|s| - 1] == '/' then StripRight(s[..|s| - 1]) else s
  }

  function StripLeft(s: string): string {
    if s != "" && s[0] == '/' then StripLeft(s[1..]) else s
  }

  // The object key: prefix, job and execution.
  function OutputKey(prefix: string, name: string, execution: string, suffix: string): string {
    StripLeft(StripRight(prefix) + "/" + name + "/" + execution + "." + suffix)
  }

  // A connection's prefix never starts with a slash.
  predicate IsPrefix(s: string) {
    s != "" ==> s[0] != '/'
  }

  predicate Starts(s: string) {
    s != "" && s[0] != '/'
  }

  lemma {:induction false} StripRightKeeps(s: string)
    requires IsPrefix(s)
    ensures StripRight(s) <= s && (s == "" <==> StripRight(s) == "")
    ensures forall i | |StripRight(s)| <= i < |s| :: s[i] == '/'
  {
    if s != "" && s[|s| - 1] == '/' {
      assert |s| > 1;
      StripRightKeeps(s[..|s| - 1]);
    }
  }

  lemma StripLeftKeeps(s: string, t: string)
    requires Starts(s)
    ensures StripLeft(s + t) == s + t && StripLeft("/" + s + t) == s + t
  {
    assert (s + t)[0] == s[0];
    assert ("/" + s + t)[1..] == s + t;
  }

  lemma {:induction false} StripRightIsLast(s: string)
    ensures StripRight(s) != "" ==> StripRight(s)[|StripRight(s)| - 1] != '/'
  {
    if s != "" && s[|s| - 1] == '/' {
      StripRightIsLast(s[..|s| - 1]);
    }
  }

  // What comes before the execution's own part.
  function Folder(prefix: string, name: string): string {
    if StripRight(prefix) == "" then name + "/" else StripRight(prefix) + "/" + name + "/"
  }

  lemma KeyIsInFolder(prefix: string, name: string, execution: string, suffix: string)
    requires IsPrefix(prefix) && Starts(name)
    ensures OutputKey(prefix, name, execution, suffix) == Folder(prefix, name) + execution + "." + suffix
  {
    var p := StripRight(prefix);
    StripRightKeeps(prefix);
    if p == "" {
      StripLeftKeeps(name, "/" + execution + "." + suffix);
      assert p + "/" + name + "/" + execution + "." + suffix == "/" + name + ("/" + execution + "." + suffix);
      assert name + ("/" + execution + "." + suffix) == Folder(prefix, name) + execution + "." + suffix;
    } else {
      StripLeftKeeps(p, "/" + name + "/" + execution + "." + suffix);
      assert p + "/" + name + "/" + execution + "." + suffix == p + ("/" + name + "/" + execution + "." + suffix);
      assert p + ("/" + name + "/" + execution + "." + suffix) == Folder(prefix, name) + execution + "." + suffix;
    }
  }

  // A prefix, and the same without the slashes at its end.
  ghost predicate IsTrimmed(prefix: string, p: string) {
    && p <= prefix && (p != "" ==> p[|p| - 1] != '/')
    && forall i | |p| <= i < |prefix| :: prefix[i] == '/'
  }

  lemma SameTrim(prefix: string, p: string, q: string)
    requires IsTrimmed(prefix, p) && IsTrimmed(prefix, q)
    ensures p == q
  {
  }

  /** The key is the prefix without slashes at its end, the job's name, and the execution with its suffix. */
  lemma KeyIsExact(prefix: string, name: string, execution: string, suffix: string, p: string)
    requires IsPrefix(prefix) && Starts(name) && IsTrimmed(prefix, p)
    ensures OutputKey(prefix, name, execution, suffix)
         == (if p == "" then "" else p + "/") + name + "/" + execution + "." + suffix
  {
    StripRightKeeps(prefix);
    StripRightIsLast(prefix);
    KeyIsInFolder(prefix, name, execution, suffix);
    var q := StripRight(prefix);
    SameTrim(prefix, p, q);
    if p == "" {
      assert name + "/" + execution + "." + suffix == "" + name + "/" + execution + "." + suffix;
    }
  }

  /** Different executions of one job never share a key. */
  lemma KeysAreTheirExecutions(prefix: string, name: string, a: string, b: string, suffix: string)
    requires IsPrefix(prefix) && Starts(name)
    ensures OutputKey(prefix, name, a, suffix) == OutputKey(prefix, name, b, suffix) <==> a == b
  {
    KeyIsInFolder(prefix, name, a, suffix);
    KeyIsInFolder(prefix, name, b, suffix);
    if OutputKey(prefix, name, a, suffix) == OutputKey(prefix, name, b, suffix) {
      var f, n := Folder(prefix, name), |Folder(prefix, name)|;
      assert |a| == |b|;
      assert a == (f + a + "." + suffix)[n..n + |a|];
      assert b == (f + b + "." + suffix)[n..n + |b|];
    }
  }

  /******* Addresses *******/

  // The URL library drops tabs and line ends wherever they are.
  predicate IsDropped(c: char) {
    c == '\t' || c == '\n' || c == '\r'
  }

  function Sanitize(s: string): string {
    if s == "" then ""
    else if IsDropped(s[|s| - 1]) then Sanitize(s[..|s| - 1])
    else Sanitize(s[..|s| - 1]) + [s[|s| - 1]]
  }

  // What is before and after the first of a character; the character itself belongs to neither.
  function Cut(s: string, c: char): (string, string) {
    if s == "" then ("", "")
    else if s[0] == c then ("", s[1..])
    else
      var (before, after) := Cut(s[1..], c);
      ([s[0]] + before, after)
  }

  // Whether s3://bucket/key is an address of the connection: no query, no fragment, within the prefix.
  predicate AddressFits(prefix: string, key: string) {
    var (rest, fragment) := Cut(Sanitize(key), '#');
    var (path, query) := Cut(rest, '?');
    var p := StripRight(prefix);
    query == "" && fragment == "" && StripLeft(path) != "" && (p == "" || path == p || p + "/" <= path)
  }

  predicate IsSpecial(c: char) {
    c == '?' || c == '#' || IsDropped(c)
  }

  predicate Plain(s: string) {
    forall i | 0 <= i < |s| :: !IsSpecial(s[i])
  }

  lemma {:induction false} SanitizeDrops(s: string)
    ensures forall c :: c in Sanitize(s) <==> c in s && !IsDropped(c)
    ensures (forall i | 0 <= i < |s| :: !IsDropped(s[i])) ==> Sanitize(s) == s
  {
    if s != "" {
      SanitizeDrops(s[..|s| - 1]);
      assert s == s[..|s| - 1] + [s[|s| - 1]];
    }
  }

  lemma {:induction false} CutWithout(s: string, c: char)
    ensures c !in s ==> Cut(s, c) == (s, "")
    ensures c in s && s[|s| - 1] != c ==> Cut(s, c).1 != ""
    ensures c in s ==> Cut(s, c).0 + [c] + Cut(s, c).1 == s
    ensures c !in Cut(s, c).0
  {
    if s != "" {
      CutWithout(s[1..], c);
      assert s == [s[0]] + s[1..];
    }
  }

  lemma PlainIsMembership(s: string)
    ensures Plain(s) <==> forall c | c in s :: !IsSpecial(c)
  {
  }

  lemma {:induction false} StripRightOnlySlashes(s: string)
    requires IsPrefix(s)
    ensures Plain(s) <==> Plain(StripRight(s))
  {
    StripRightKeeps(s);
    assert forall i | 0 <= i < |StripRight(s)| :: StripRight(s)[i] == s[i];
  }

  lemma PlainKeyFits(prefix: string, key: string)
    requires Plain(key) && Starts(key) && (StripRight(prefix) == "" || StripRight(prefix) + "/" <= key)
    ensures AddressFits(prefix, key)
  {
    SanitizeDrops(key);
    PlainIsMembership(key);
    CutWithout(key, '#');
    CutWithout(key, '?');
  }

  lemma QueriedKeyFails(prefix: string, key: string)
    requires key != "" && !IsSpecial(key[|key| - 1]) && ('?' in key || '#' in key)
    ensures !AddressFits(prefix, key)
  {
    var url := Sanitize(key);
    SanitizeDrops(key);
    assert url == Sanitize(key[..|key| - 1]) + [key[|key| - 1]];
    assert url[|url| - 1] == key[|key| - 1];
    CutWithout(url, '#');
    CutWithout(url, '?');
  }

  lemma DroppedKeyFails(prefix: string, rest: string)
    requires !Plain(StripRight(prefix)) && '?' !in StripRight(prefix) && '#' !in StripRight(prefix)
    requires '?' !in rest && '#' !in rest
    ensures !AddressFits(prefix, StripRight(prefix) + "/" + rest)
  {
    var p := StripRight(prefix);
    var key := p + "/" + rest;
    PlainIsMembership(p);
    var c :| c in p && IsDropped(c);
    SanitizeDrops(key);
    assert '?' !in key && '#' !in key;
    var url := Sanitize(key);
    CutWithout(url, '#');
    CutWithout(url, '?');
    PrefixMembers(p, url, c);
  }

  lemma PrefixMembers(p: string, url: string, c: char)
    requires c in p
    ensures p + "/" <= url ==> c in url
    ensures p == url ==> c in url
  {
    if p + "/" <= url {
      var i :| 0 <= i < |p| && p[i] == c;
      assert url[i] == (p + "/")[i];
    }
  }

  /** An execution's own output address is accepted exactly when the connection's prefix has no question
      mark, number sign, tab or line end. */
  lemma OutputAddressFits(prefix: string, name: string, execution: string, suffix: string)
    requires IsPrefix(prefix) && Starts(name) && Plain(name) && Plain(execution) && Plain(suffix) && suffix != ""
    ensures AddressFits(prefix, OutputKey(prefix, name, execution, suffix)) <==> Plain(prefix)
  {
    var p, key := StripRight(prefix), OutputKey(prefix, name, execution, suffix);
    var rest := name + "/" + execution + "." + suffix;
    StripRightKeeps(prefix);
    StripRightOnlySlashes(prefix);
    KeyIsInFolder(prefix, name, execution, suffix);
    RestIsPlain(name, execution, suffix);
    if p == "" {
      assert key == rest;
      PlainKeyFits(prefix, key);
    } else {
      assert key == p + "/" + rest;
      PrefixedKeyFits(prefix, rest);
    }
  }

  /** Each of the five characters alone makes such a prefix. */
  lemma RefusedPrefixes(name: string, execution: string, suffix: string)
    requires Starts(name) && Plain(name) && Plain(execution) && Plain(suffix) && suffix != ""
    ensures forall prefix | prefix in {"a?b", "a#b", "a\tb", "a\nb", "a\rb"} ::
              IsPrefix(prefix) && !AddressFits(prefix, OutputKey(prefix, name, execution, suffix))
  {
    forall prefix | prefix in {"a?b", "a#b", "a\tb", "a\nb", "a\rb"}
      ensures IsPrefix(prefix) && !AddressFits(prefix, OutputKey(prefix, name, execution, suffix))
    {
      assert prefix[0] == 'a' && IsSpecial(prefix[1]);
      OutputAddressFits(prefix, name, execution, suffix);
    }
  }

  lemma RestIsPlain(name: string, execution: string, suffix: string)
    requires Starts(name) && Plain(name) && Plain(execution) && Plain(suffix)
    ensures Plain(name + "/" + execution + "." + suffix) && Starts(name + "/" + execution + "." + suffix)
  {
    PlainIsMembership(name);
    PlainIsMembership(execution);
    PlainIsMembership(suffix);
    PlainIsMembership(name + "/" + execution + "." + suffix);
    assert (name + "/" + execution + "." + suffix)[0] == name[0];
  }

  lemma PrefixedKeyFits(prefix: string, rest: string)
    requires IsPrefix(prefix) && StripRight(prefix) != "" && Plain(rest) && rest != ""
    ensures AddressFits(prefix, StripRight(prefix) + "/" + rest) <==> Plain(StripRight(prefix))
  {
    var p := StripRight(prefix);
    var key := p + "/" + rest;
    StripRightKeeps(prefix);
    PlainIsMembership(p);
    PlainIsMembership(rest);
    PlainIsMembership(key);
    assert key[|key| - 1] == rest[|rest| - 1];
    assert key[0] == p[0];
    if Plain(p) {
      PlainKeyFits(prefix, key);
    } else if '?' in p || '#' in p {
      assert '?' in key || '#' in key;
      QueriedKeyFails(prefix, key);
    } else {
      DroppedKeyFails(prefix, rest);
    }
  }
}
