/** models/components.go: a component printed as one string, and parsed back. */
module ComponentText {
  import opened Wrappers
  import opened Models

  const SEPARATOR := " - "

  function Print(c: Component): string {
    if c.group == "" then c.name else c.group + SEPARATOR + c.name
  }

  predicate StartsWith(s: string, prefix: string) {
    |prefix| <= |s| && s[..|prefix|] == prefix
  }

  predicate SeparatorAt(s: string, i: nat) {
    i + 3 <= |s| && s[i] == ' ' && s[i + 1] == '-' && s[i + 2] == ' '
  }

  ghost predicate HasSeparator(s: string) {
    exists i: nat :: SeparatorAt(s, i)
  }

  /** The first separator at or after `from`. */
  function FindSeparator(s: string, from: nat): (at: Option<nat>)
    requires from <= |s|
    ensures at.Some? ==> from <= at.value && SeparatorAt(s, at.value)
    ensures forall j: nat :: from <= j && (at.Some? ==> j < at.value) ==> !SeparatorAt(s, j)
    decreases |s| - from
  {
    if from == |s| then None
    else if SeparatorAt(s, from) then Some(from)
    else FindSeparator(s, from + 1)
  }

  /** strings.SplitN(s, " - ", 2). */
  function SplitOnce(s: string): seq<string> {
    match FindSeparator(s, 0)
    case None => [s]
    case Some(i) => [s[..i], s[i + 3..]]
  }

  /** The two fields as UnmarshalJSON leaves them in a fresh component. */
  function Parse(s: string): Component {
    var split := SplitOnce(s);
    if |split| == 1 then Component(split[0], "") else Component(split[1], split[0])
  }

  ghost predicate SplitsAt(s: string, i: nat) {
    i + 3 <= |s| && s[i..i + 3] == " - "
  }

  lemma SplitsAtSeparator(s: string, i: nat)
    ensures SplitsAt(s, i) <==> SeparatorAt(s, i)
  {
    assert i + 3 <= |s| ==> s[i..i + 3] == [s[i], s[i + 1], s[i + 2]];
  }

  lemma FirstSplit(s: string)
    ensures (forall i: nat :: !SplitsAt(s, i)) ==> FindSeparator(s, 0) == None
    ensures forall i: nat :: SplitsAt(s, i) && (forall j: nat :: j < i ==> !SplitsAt(s, j)) ==>
      FindSeparator(s, 0) == Some(i)
  {
    forall i: nat {
      SplitsAtSeparator(s, i);
    }
    var at := FindSeparator(s, 0);
    if at.Some? {
      assert SplitsAt(s, at.value);
    }
  }

  class ComponentCell {
    var name: string
    var group: string

    constructor ()
      ensures name == "" && group == ""
    {
      name, group := "", "";
    }

    /** Sets the receiver from a string. Without a separator the group is left as it was. */
    method UnmarshalJSON(s: string)
      modifies this
      ensures name == Parse(s).name
      ensures group == if HasSeparator(s) then Parse(s).group else old(group)
      ensures old(group) == "" ==> Component(name, group) == Parse(s)
      ensures (forall i: nat :: !SplitsAt(s, i)) ==> name == s && group == old(group)
      ensures forall i: nat :: SplitsAt(s, i) && (forall j: nat :: j < i ==> !SplitsAt(s, j)) ==>
        group == s[..i] && name == s[i + 3..]
    {
      FirstSplit(s);
      var split := SplitOnce(s);
      if |split| == 1 {
        name := split[0];
        return;
      }
      group := split[0];
      name := split[1];
    }
  }

  /** Printing a parsed string gives it back exactly when it does not start with the separator. */
  lemma PrintAfterParse(s: string)
    ensures Print(Parse(s)) == s <==> !StartsWith(s, SEPARATOR)
  {
    match FindSeparator(s, 0)
    case None =>
      assert StartsWith(s, SEPARATOR) ==> SeparatorAt(s, 0) by {
        if StartsWith(s, SEPARATOR) {
          StartIsSeparator(s);
        }
      }
    case Some(i) =>
      assert s == s[..i] + SEPARATOR + s[i + 3..];
      if i == 0 {
        StartIsSeparator(s);
        assert |Print(Parse(s))| < |s|;
      } else {
        StartIsSeparator(s);
        assert !SeparatorAt(s, 0);
      }
  }

  lemma StartIsSeparator(s: string)
    ensures StartsWith(s, SEPARATOR) <==> SeparatorAt(s, 0)
  {
    if SeparatorAt(s, 0) {
      assert s[..3] == [s[0], s[1], s[2]];
    }
    if StartsWith(s, SEPARATOR) {
      assert s[..3][0] == s[0] && s[..3][1] == s[1] && s[..3][2] == s[2];
    }
  }

  predicate EndsInDash(s: string) {
    |s| >= 2 && s[|s| - 2] == ' ' && s[|s| - 1] == '-'
  }

  /** The components that survive being printed and parsed. */
  ghost predicate Unambiguous(c: Component) {
    if c.group == "" then !HasSeparator(c.name)
    else !HasSeparator(c.group) && !EndsInDash(c.group)
  }

  lemma FirstSeparator(s: string, i: nat)
    requires SeparatorAt(s, i) && forall j: nat :: j < i ==> !SeparatorAt(s, j)
    ensures FindSeparator(s, 0) == Some(i)
  {
    var at := FindSeparator(s, 0);
    assert at.Some? ==> SeparatorAt(s, at.value);
  }

  /** Parsing a printed component gives it back exactly when it is unambiguous: an ungrouped name must
    * not contain the separator, and a group must neither contain it nor end in a space and a dash,
    * which the printed separator would complete one character early. */
  lemma ParseAfterPrint(c: Component)
    ensures Parse(Print(c)) == c <==> Unambiguous(c)
  {
    var s := Print(c);
    if c.group == "" {
      if i: nat :| SeparatorAt(c.name, i) {
        assert FindSeparator(s, 0).Some?;
      }
    } else {
      var n := |c.group|;
      assert s[..n] == c.group && s[n + 3..] == c.name;
      assert SeparatorAt(s, n);
      forall j: nat | j < n
        ensures SeparatorAt(s, j) <==> SeparatorAt(c.group, j) || (j == n - 2 && EndsInDash(c.group))
      {
      }
      if Unambiguous(c) {
        FirstSeparator(s, n);
      } else {
        if j: nat :| SeparatorAt(c.group, j) {
          assert SeparatorAt(s, j);
        } else {
          assert SeparatorAt(s, n - 2);
        }
        var at := FindSeparator(s, 0);
        assert at.Some? && at.value < n;
        assert |Parse(s).group| < n;
      }
    }
  }

  /** Unambiguous components that print alike are the same. */
  lemma PrintsApart(a: Component, b: Component)
    requires Unambiguous(a) && Unambiguous(b) && Print(a) == Print(b)
    ensures a == b
  {
    ParseAfterPrint(a);
    ParseAfterPrint(b);
  }

  /** A parsed component is unambiguous, unless its text starts with the separator and has another. */
  lemma ParsedIsUnambiguous(s: string)
    ensures Unambiguous(Parse(s)) <==> !(StartsWith(s, SEPARATOR) && HasSeparator(s[3..]))
  {
    StartIsSeparator(s);
    match FindSeparator(s, 0)
    case None =>
    case Some(i) =>
      if i > 0 {
        assert !SeparatorAt(s, 0);
        forall j: nat
          ensures !SeparatorAt(s[..i], j)
        {
          assert SeparatorAt(s[..i], j) ==> SeparatorAt(s, j);
        }
        if EndsInDash(s[..i]) {
          assert SeparatorAt(s, i - 2);
        }
      }
  }

  lemma SamePrintedGroup(a: Component, b: Component)
    requires Print(a) == Print(b) && a.group == b.group
    ensures a == b
  {
    if a.group != "" {
      assert a.name == Print(a)[|a.group| + 3..] && b.name == Print(b)[|b.group| + 3..];
    }
  }

  /** The only text from which an ungrouped component with the separator in its name can be read. */
  lemma TextOfAmbiguous(s: string, name: string)
    requires HasSeparator(name)
    ensures Parse(s) == Component(name, "") <==> s == SEPARATOR + name
  {
    StartIsSeparator(s);
    var at := FindSeparator(s, 0);
    if at == Some(0) {
      assert s == s[..3] + s[3..];
      assert Parse(s) == Component(s[3..], "");
    }
    if s == SEPARATOR + name {
      assert SeparatorAt(s, 0);
      FirstSeparator(s, 0);
      assert s[3..] == name;
    }
  }

  /** And the only text in a request that leaves one in a store that prints and parses it once more. */
  lemma StoredTextOfAmbiguous(s: string, name: string)
    requires HasSeparator(name)
    ensures Parse(Print(Parse(s))) == Component(name, "") <==> s == SEPARATOR + SEPARATOR + name
  {
    var text := Print(Parse(s));
    TextOfAmbiguous(text, name);
    StartIsSeparator(s);
    if StartsWith(s, SEPARATOR) {
      FirstSeparator(s, 0);
      assert text == s[3..];
      assert s == SEPARATOR + s[3..];
    } else {
      PrintAfterParse(s);
      assert (SEPARATOR + name)[..3] == SEPARATOR;
    }
    assert (SEPARATOR + SEPARATOR + name)[..3] == SEPARATOR;
    assert (SEPARATOR + SEPARATOR + name)[3..] == SEPARATOR + name;
  }

  lemma Reassociate(group: string, name: string)
    ensures SEPARATOR + SEPARATOR + (group + SEPARATOR + name) == SEPARATOR + SEPARATOR + group + SEPARATOR + name
  {
  }

  lemma TextOfGroupedName(group: string, name: string, text: string)
    ensures Parse(Print(Parse(text))) == Component(group + SEPARATOR + name, "")
       <==> text == SEPARATOR + SEPARATOR + group + SEPARATOR + name
  {
    var read := group + SEPARATOR + name;
    assert SeparatorAt(read, |group|);
    assert HasSeparator(read);
    StoredTextOfAmbiguous(text, read);
    Reassociate(group, name);
  }
}
