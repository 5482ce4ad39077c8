/** The labels under which a listing's invalid items are reported, each its own. */
module Labels {
  import opened Names
  import opened ResourceSpec
  import opened IngestionSpec

  /** The first thing wrong with an item: it is no object, or which of its fields is not as it must be. */
  datatype Flaw = NoObject | Field(name: string)

  function FlawIn(item: Item): Option<Flaw> {
    if item.NotAnObject? then Some(NoObject)
    else if !Required(item.resourceId) then Some(Flaw.Field("resource_id"))
    else if !Required(item.resourceType) then Some(Flaw.Field("resource_type"))
    else if !Required(item.name) then Some(Flaw.Field("name"))
    else if !Optional(item.owner) then Some(Flaw.Field("owner"))
    else if !Optional(item.source) then Some(Flaw.Field("source"))
    else if item.capabilities.BadCapabilities? then Some(Flaw.Field("capabilities"))
    else if item.metadata.BadMetadata? then Some(Flaw.Field("metadata"))
    else None
  }

  lemma FlawIff(item: Item)
    ensures FlawIn(item).Some? <==> Normalize(item) == None
  {}

  const UNKNOWN := "<unknown>"

  /** `_describe` */
  function Describe(item: Item): string {
    if item.Item? && Required(item.resourceId) then item.resourceId.text else UNKNOWN
  }

  function Decimal(n: nat): string {
    var digit := ['0' + (n % 10) as char];
    if n < 10 then digit else Decimal(n / 10) + digit
  }

  function ReadDecimal(s: string): int {
    if s == "" then 0 else ReadDecimal(s[..|s| - 1]) * 10 + (s[|s| - 1] as int - '0' as int)
  }

  /** A number's decimal spelling has digits only, no zero in front, and reads as the number. */
  lemma {:induction false} DecimalReads(n: nat)
    ensures ReadDecimal(Decimal(n)) == n && (forall c | c in Decimal(n) :: '0' <= c <= '9')
    ensures Decimal(n) != "" && (n > 0 ==> Decimal(n)[0] != '0')
  {
    var s := Decimal(n);
    if n >= 10 {
      DecimalReads(n / 10);
      assert s[..|s| - 1] == Decimal(n / 10);
    } else {
      assert s[..0] == "";
    }
  }

  lemma {:induction false} DecimalInjective(m: nat, n: nat)
    requires Decimal(m) == Decimal(n)
    ensures m == n
    decreases m + n
  {
    var s, t := Decimal(m), Decimal(n);
    assert s[|s| - 1] == '0' + (m % 10) as char && t[|t| - 1] == '0' + (n % 10) as char;
    if m >= 10 && n >= 10 {
      assert s[..|s| - 1] == Decimal(m / 10) && t[..|t| - 1] == Decimal(n / 10);
      DecimalInjective(m / 10, n / 10);
    }
  }

  /** What an item is called once its plain label is taken: by its place among the items, in id order. */
  function Base(item: Item, idx: nat): string {
    if Describe(item) == UNKNOWN then "<unknown-" + Decimal(idx) + ">" else Describe(item) + "-" + Decimal(idx)
  }

  /** What the labels look like. */
  lemma LabelShapes(item: Item, idx: nat, id: string)
    ensures item.Item? && item.resourceId == Text(id) && id != "" ==> Describe(item) == id
    ensures item.NotAnObject? || !item.resourceId.Text? || item.resourceId.text == "" ==> Describe(item) == "<unknown>"
    ensures Base(item, idx) ==
      if Describe(item) == "<unknown>" then "<unknown-" + Decimal(idx) + ">" else Describe(item) + "-" + Decimal(idx)
  {}

  function Suffixed(base: string, n: nat): string { if n == 0 then base else base + "-" + Decimal(n) }

  lemma SuffixedInjective(base: string, m: nat, n: nat)
    requires Suffixed(base, m) == Suffixed(base, n)
    ensures m == n
  {
    if m > 0 && n > 0 {
      var k := |base + "-"|;
      assert Suffixed(base, m)[k..] == Decimal(m) && Suffixed(base, n)[k..] == Decimal(n);
      DecimalInjective(m, n);
    }
  }

  /** The plain label if it is free, else the first free one of the base and its numbered forms. */
  ghost predicate Chosen(name: string, item: Item, idx: nat, taken: set<string>) {
    && name !in taken
    && if Describe(item) !in taken then name == Describe(item)
       else exists n: nat :: name == Suffixed(Base(item, idx), n) && AllTaken(Base(item, idx), n, taken)
  }

  ghost predicate AllTaken(base: string, n: nat, taken: set<string>) {
    forall j: nat | j < n :: Suffixed(base, j) in taken
  }

  function Tried(base: string, n: nat): set<string> {
    if n == 0 then {} else Tried(base, n - 1) + {Suffixed(base, n - 1)}
  }

  /** Labels tried in vain are different ones, so there are no more of them than labels taken. */
  lemma {:induction false} TriedAreFew(base: string, n: nat, taken: set<string>)
    requires AllTaken(base, n, taken)
    ensures Tried(base, n) <= taken && |Tried(base, n)| == n <= |taken|
    ensures forall x | x in Tried(base, n) :: exists j: nat :: j < n && x == Suffixed(base, j)
  {
    if n > 0 {
      TriedAreFew(base, n - 1, taken);
      if Suffixed(base, n - 1) in Tried(base, n - 1) {
        var j: nat :| j < n - 1 && Suffixed(base, n - 1) == Suffixed(base, j);
        SuffixedInjective(base, n - 1, j);
      }
    }
    SubsetSize(Tried(base, n), taken);
  }

  /** The loop that looks for a free label. */
  method NextLabel(item: Item, idx: nat, taken: set<string>) returns (name: string)
    ensures Chosen(name, item, idx, taken)
  {
    name := Describe(item);
    if name !in taken { return; }
    var base := Base(item, idx);
    var suffix := 0;
    name := base;
    while name in taken
      invariant name == Suffixed(base, suffix) && AllTaken(base, suffix, taken)
      decreases |taken| - suffix
    {
      assert AllTaken(base, suffix + 1, taken);
      TriedAreFew(base, suffix + 1, taken);
      suffix := suffix + 1;
      name := base + "-" + Decimal(suffix);
    }
  }

  /** Going through the first n items, every invalid one has been given a label of its own, under which its flaw is
      on record. */
  ghost predicate Recorded(items: seq<Item>, n: nat, failed: seq<string>, errors: map<string, Flaw>)
    requires n <= |items|
  {
    if n == 0 then failed == [] && errors == map[]
    else if FlawIn(items[n - 1]) == None then Recorded(items, n - 1, failed, errors)
    else
      && failed != []
      && var name, before := failed[|failed| - 1], failed[..|failed| - 1];
      && Chosen(name, items[n - 1], n - 1, Elems(before))
      && name in errors && errors[name] == FlawIn(items[n - 1]).value
      && Recorded(items, n - 1, before, errors - {name})
  }

  /** No two invalid items share a label, and every one is on record. */
  lemma {:induction false} RecordedOnce(items: seq<Item>, n: nat, failed: seq<string>, errors: map<string, Flaw>)
    requires n <= |items| && Recorded(items, n, failed, errors)
    ensures Distinct(failed) && errors.Keys == Elems(failed)
  {
    if n > 0 {
      if FlawIn(items[n - 1]) == None {
        RecordedOnce(items, n - 1, failed, errors);
      } else {
        var name, before := failed[|failed| - 1], failed[..|failed| - 1];
        RecordedOnce(items, n - 1, before, errors - {name});
        assert failed == before + [name];
        ElemsAppend(before, name);
        assert errors.Keys == (errors - {name}).Keys + {name};
      }
    }
  }

  lemma RecordedValid(items: seq<Item>, n: nat, failed: seq<string>, errors: map<string, Flaw>)
    requires n < |items| && Recorded(items, n, failed, errors) && FlawIn(items[n]) == None
    ensures Recorded(items, n + 1, failed, errors)
  {}

  lemma RecordedNext(items: seq<Item>, n: nat, failed: seq<string>, errors: map<string, Flaw>, name: string)
    requires n < |items| && Recorded(items, n, failed, errors)
    requires FlawIn(items[n]).Some? && Chosen(name, items[n], n, Elems(failed))
    ensures Recorded(items, n + 1, failed + [name], errors[name := FlawIn(items[n]).value])
  {
    hide Chosen, FlawIn;
    RecordedOnce(items, n, failed, errors);
    ChosenFree(name, items[n], n, Elems(failed));
    var more, record := failed + [name], errors[name := FlawIn(items[n]).value];
    assert more[..|more| - 1] == failed && more[|more| - 1] == name;
    assert record - {name} == errors;
    assert Recorded(items, n, failed, record - {name});
  }

  lemma ChosenFree(name: string, item: Item, idx: nat, taken: set<string>)
    requires Chosen(name, item, idx, taken)
    ensures name !in taken
  {}
}
