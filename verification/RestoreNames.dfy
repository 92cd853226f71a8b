/** The directory names of the restore protocol as text: different roles, users and generations never meet. */
module RestoreNames {
  import opened AttachmentDisk
  import opened Decimal
  import opened Text

  const STAGE_PREFIX: string := ".restore-stage-"
  const PREVIOUS_PREFIX: string := ".restore-previous-"

  ghost predicate Injective(uuid: Generation -> string) {
    forall g, h :: uuid(g) == uuid(h) ==> g == h
  }

  /** `<user>-<generation>`. */
  function Tail(u: User, gen: string): string {
    Digits(u) + "-" + gen
  }

  function TextOf(n: Name, uuid: Generation -> string): string {
    match n
    case Active(u) => Digits(u)
    case Stage(u, g) => STAGE_PREFIX + Tail(u, uuid(g))
    case Previous(u, g) => PREVIOUS_PREFIX + Tail(u, uuid(g))
  }

  lemma NoDashInDigits(n: nat)
    ensures '-' !in Digits(n) && Digits(n)[0] != '.'
  {
    var d := Digits(n);
    forall i | 0 <= i < |d| ensures d[i] != '-' && d[i] != '.' {
      assert IsDigit(d[i]);
    }
  }

  lemma TailInjective(u: User, gen: string, v: User, other: string)
    requires Tail(u, gen) == Tail(v, other)
    ensures u == v && gen == other
  {
    NoDashInDigits(u);
    NoDashInDigits(v);
    FindFirst(Digits(u), gen, '-');
    FindFirst(Digits(v), other, '-');
    assert Tail(u, gen)[..|Digits(u)|] == Digits(u) && Tail(v, other)[..|Digits(v)|] == Digits(v);
    assert Tail(u, gen)[|Digits(u)| + 1..] == gen && Tail(v, other)[|Digits(v)| + 1..] == other;
    DigitsInjective(u, v);
  }

  lemma SamePrefixSameTail(prefix: string, a: string, b: string)
    requires prefix + a == prefix + b
    ensures a == b
  {
    assert (prefix + a)[|prefix|..] == a && (prefix + b)[|prefix|..] == b;
  }

  /** The kind of a name shows in its tenth character, or in not having the leading dot. */
  lemma KindShows(n: Name, uuid: Generation -> string)
    ensures n.Active? <==> TextOf(n, uuid)[0] != '.'
    ensures n.Stage? ==> |TextOf(n, uuid)| > 9 && TextOf(n, uuid)[9] == 's'
    ensures n.Previous? ==> |TextOf(n, uuid)| > 9 && TextOf(n, uuid)[9] == 'p'
  {
    match n
    case Active(u) => NoDashInDigits(u);
    case Stage(u, g) => assert STAGE_PREFIX[9] == 's' && STAGE_PREFIX[0] == '.';
    case Previous(u, g) => assert PREVIOUS_PREFIX[9] == 'p' && PREVIOUS_PREFIX[0] == '.';
  }

  /** One user's directories are never another's, and the three roles never share a directory. */
  lemma NamesDoNotMeet(m: Name, n: Name, uuid: Generation -> string)
    requires Injective(uuid) && TextOf(m, uuid) == TextOf(n, uuid)
    ensures m == n
  {
    KindShows(m, uuid);
    KindShows(n, uuid);
    match m
    case Active(u) => DigitsInjective(u, n.user);
    case Stage(u, g) =>
      SamePrefixSameTail(STAGE_PREFIX, Tail(u, uuid(g)), Tail(n.user, uuid(n.gen)));
      TailInjective(u, uuid(g), n.user, uuid(n.gen));
    case Previous(u, g) =>
      SamePrefixSameTail(PREVIOUS_PREFIX, Tail(u, uuid(g)), Tail(n.user, uuid(n.gen)));
      TailInjective(u, uuid(g), n.user, uuid(n.gen));
  }

  /** The orphan cleanup looks at exactly the stage directories. */
  lemma StagesHaveThePrefix(n: Name, uuid: Generation -> string)
    ensures STAGE_PREFIX <= TextOf(n, uuid) <==> n.Stage?
  {
    KindShows(n, uuid);
    if STAGE_PREFIX <= TextOf(n, uuid) {
      assert TextOf(n, uuid)[0] == STAGE_PREFIX[0] && TextOf(n, uuid)[9] == STAGE_PREFIX[9];
    }
  }
}
