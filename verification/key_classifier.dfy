/**
 * Sorting of submitted keys.
 *
 * Each submitted key is, in this order of checks: a field the form already
 * has (skipped), the exact canonical name of a registered field (no set), a
 * set member `<canonical>_<digits>` whose prefix before the LAST underscore
 * is registered, or anything else (dropped without error).
 */
module KeyClassifier {

  /** The separator between a canonical name and its set number. */
  const Separator: char := '_'

  /** Whether a resolved key belongs to a set, and to which one. */
  datatype SetContext = NoSet | InSet(number: string)

  /** The four cases a submitted key falls into. */
  datatype KeyClass =
    | StaticField
    | Canonical(name: string)
    | SetMember(name: string, number: string)
    | Unrecognized
  {
    /** The key yields a dynamic field. */
    predicate Accepted() {
      Canonical? || SetMember?
    }

    /** The set an accepted key belongs to. */
    function Context(): SetContext
      requires Accepted()
    {
      if Canonical? then NoSet else InSet(number)
    }
  }

  predicate IsDigit(c: char) {
    '0' <= c <= '9'
  }

  /** `str.isdigit()` restricted to ASCII digits: non-empty and digits only. */
  predicate IsDigits(s: string) {
    |s| > 0 && forall i :: 0 <= i < |s| ==> IsDigit(s[i])
  }

  /** A set number never holds the separator, so it is always a whole last segment. */
  lemma DigitsWithoutSeparator(s: string)
    requires IsDigits(s)
    ensures |s| > 0 && Separator !in s
  {
  }

  /**
   * `key.split('_')[-1]`: the text after the last separator, or the whole key
   * when it has no separator.
   */
  function LastSegment(key: string): (seg: string)
    ensures |seg| <= |key| && seg == key[|key| - |seg|..]
    ensures Separator !in seg
    ensures |seg| < |key| ==> key[|key| - |seg| - 1] == Separator
  {
    if key == [] || key[|key| - 1] == Separator then ""
    else
      var init := key[..|key| - 1];
      var seg := LastSegment(init);
      assert init[|init| - |seg|..] + [key[|key| - 1]] == key[|key| - |seg| - 1..];
      seg + [key[|key| - 1]]
  }

  /**
   * `key[:-(len(seg)) - 1]` with Python's slicing: everything before the last
   * separator, and the empty string when the key has no separator.
   */
  function Prefix(key: string): (p: string)
    ensures Separator in key ==> key == p + [Separator] + LastSegment(key)
    ensures Separator !in key ==> p == ""
  {
    var seg := LastSegment(key);
    if |seg| < |key| then
      assert key == key[..|key| - |seg| - 1] + [Separator] + seg;
      key[..|key| - |seg| - 1]
    else
      assert seg == key;
      ""
  }

  /**
   * Classifies `key`. `present` holds the names of the fields the form already
   * has, `registered` the canonical names of the registry.
   */
  function Classify(key: string, present: set<string>, registered: set<string>): (c: KeyClass)
    ensures c == StaticField <==> key in present
    ensures c.Canonical? ==> c.name == key
    ensures c.SetMember? ==> key !in registered && IsDigits(c.number)
    ensures c.Accepted() ==> c.name in registered
  {
    if key in present then StaticField
    else if key in registered then Canonical(key)
    else
      var seg := LastSegment(key);
      if IsDigits(seg) && Prefix(key) in registered then SetMember(Prefix(key), seg)
      else Unrecognized
  }

  /** Only whether the key itself is present matters, not the rest of `present`. */
  lemma ClassifyPresent(key: string, present: set<string>, present': set<string>, registered: set<string>)
    requires key in present <==> key in present'
    ensures Classify(key, present, registered) == Classify(key, present', registered)
  {
  }

  /** The last segment starts right after the last separator. */
  lemma {:induction false} LastSegmentAfter(key: string, j: nat)
    requires j < |key| && key[j] == Separator
    requires forall i :: j < i < |key| ==> key[i] != Separator
    ensures LastSegment(key) == key[j + 1..]
    decreases |key|
  {
    if j < |key| - 1 {
      var init, last := key[..|key| - 1], key[|key| - 1];
      assert last != Separator;
      assert init[j] == Separator;
      forall i | j < i < |init|
        ensures init[i] != Separator
      {
        assert init[i] == key[i];
      }
      LastSegmentAfter(init, j);
      assert LastSegment(key) == LastSegment(init) + [last];
      assert init[j + 1..] + [last] == key[j + 1..];
    } else {
      assert key[j + 1..] == [];
    }
  }

  /** A key `c_n` whose `n` has no separator splits at the separator before `n`. */
  lemma SplitAtLastSeparator(c: string, n: string)
    requires Separator !in n
    ensures LastSegment(c + [Separator] + n) == n
    ensures Prefix(c + [Separator] + n) == c
  {
    var key := c + [Separator] + n;
    assert key[|c|] == Separator;
    forall i | |c| < i < |key|
      ensures key[i] != Separator
    {
      assert key[i] == n[i - |c| - 1];
    }
    LastSegmentAfter(key, |c|);
    assert key[|c| + 1..] == n;
    assert key[..|c|] == c;
  }

  /**
   * An exact registered name is a canonical occurrence, even when it also
   * reads as `<registered prefix>_<digits>`.
   */
  lemma ClassifyCanonicalFirst(key: string, present: set<string>, registered: set<string>)
    requires key !in present && key in registered
    ensures Classify(key, present, registered) == Canonical(key)
  {
  }

  /**
   * A key `<c>_<n>` with `c` registered and `n` a digit string is set member
   * `n` of `c`, however many underscores and digits `c` itself holds.
   */
  lemma ClassifySetMember(c: string, n: string, present: set<string>, registered: set<string>)
    requires IsDigits(n) && c in registered
    requires c + [Separator] + n !in present && c + [Separator] + n !in registered
    ensures Classify(c + [Separator] + n, present, registered) == SetMember(c, n)
  {
    DigitsWithoutSeparator(n);
    SplitAtLastSeparator(c, n);
  }

  /**
   * What a set member is: a digit suffix after the last separator and a
   * registered prefix before it. A key without any separator made only of
   * digits counts as a member of the empty canonical name, as Python's
   * negative slicing makes it.
   */
  lemma ClassifySetMemberSound(key: string, present: set<string>, registered: set<string>)
    requires Classify(key, present, registered).SetMember?
    ensures var c := Classify(key, present, registered);
      && key !in present && key !in registered
      && IsDigits(c.number) && c.name in registered
      && (key == c.name + [Separator] + c.number || (c.name == "" && key == c.number && Separator !in key))
  {
    var seg := LastSegment(key);
    if |seg| < |key| {
      assert key == key[..|key| - |seg| - 1] + [Separator] + key[|key| - |seg|..];
    }
  }

  /**
   * A dropped key is no registered name and splits into no registered
   * canonical name and set number.
   */
  lemma ClassifyUnrecognized(key: string, present: set<string>, registered: set<string>)
    requires Classify(key, present, registered) == Unrecognized
    ensures key !in present && key !in registered
    ensures forall c, n :: key == c + [Separator] + n && IsDigits(n) ==> c !in registered
    ensures IsDigits(key) ==> "" !in registered
  {
    if IsDigits(key) && "" in registered {
      ClassifyBareDigits(key, present, registered);
    }
    forall c, n | key == c + [Separator] + n && IsDigits(n)
      ensures c !in registered
    {
      if c in registered {
        ClassifySetMember(c, n, present, registered);
      }
    }
  }

  /** The set member with the longest name the repository's tests submit. */
  lemma ExampleLongName()
    ensures Classify("yet_another_34_long_2_name_10_1", {}, {"yet_another_34_long_2_name_10"})
         == SetMember("yet_another_34_long_2_name_10", "1")
  {
    ClassifySetMember("yet_another_34_long_2_name_10", "1", {}, {"yet_another_34_long_2_name_10"});
    assert "yet_another_34_long_2_name_10" + [Separator] + "1" == "yet_another_34_long_2_name_10_1";
  }

  /**
   * A key made only of digits (so without a separator) is a set member of
   * the empty canonical name when that name is registered.
   */
  lemma ClassifyBareDigits(key: string, present: set<string>, registered: set<string>)
    requires IsDigits(key) && key !in present && key !in registered && "" in registered
    ensures Classify(key, present, registered) == SetMember("", key)
  {
    var seg := LastSegment(key);
    assert forall i :: 0 <= i < |key| ==> key[i] != Separator by {
      forall i | 0 <= i < |key| ensures key[i] != Separator {
        assert IsDigit(key[i]);
      }
    }
    assert |seg| == |key|;
    assert seg == key[0..] == key;
  }

  lemma ExampleBareDigits()
    ensures Classify("7", {}, {""}) == SetMember("", "7")
  {
    ClassifyBareDigits("7", {}, {""});
  }
}
