/** The error messages the checker reports. Each message keeps the values
    that its text is formatted from: names already shown the way `"{}".format`
    shows them (a missing name is the word `None`), numbers, and dates.
    `Render` gives the exact text. */
module Messages {
  import opened Wrappers
  import opened Strings
  import opened Dates

  datatype Message =
    | DuplicateIndividual(id: string)
    | DuplicateFamily(id: string)
    | MarriageInFuture(husband: string, wife: string)
    | DivorceInFuture(husband: string, wife: string)
    | BirthInFuture(name: string)
    | DeathInFuture(name: string)
    | BothBornAfterMarriage(husband: string, wife: string)
    | BornAfterMarriage(name: string)
    | DeathBeforeBirth(name: string)
    | DivorceBeforeMarriage(husband: string, wife: string)
    | MarriedOrDivorcedAfterDeath(husband: string, wife: string)
    | TooOld(name: string, age: int)
    | BornBeforeParentsMarried(name: string)
    | BornAfterParentsDivorced(name: string, months: int)
    | BornAfterFatherDied(name: string, months: int)
    | BornAfterMotherDied(name: string)
    | MarriedTooYoung(name: string, years: int)
    | Bigamy(name: string)
    | FatherTooOld(parent: string, child: string)
    | MotherTooOld(parent: string, child: string)
    | SiblingsTooClose(first: string, second: string, days: int)
    | TooManyMultipleBirths(family: string)
    | TooManySiblings(family: string)
    | MarriedToDescendant(name: string, descendant: string)
    | MarriedToSibling(name: string, sibling: string)
    | MarriedToCousin(name: string, cousin: string)
    | MarriedToAuntOrUncle(name: string)
    | FemaleHusband(family: string, name: string)
    | MaleWife(family: string, name: string)
    | DuplicateNameAndBirthday(name: string, birthday: Option<Date>)
    | DuplicateSpouses(husband: string, wife: string, married: Option<Date>)
    | DuplicateChild(name: string, birthday: Option<Date>, family: string)

  /** `"{}".format(x)` of an optional name: the text, or `None`. */
  function Show(s: Option<string>): (r: string)
    ensures s.Some? ==> r == s.value
    ensures s.None? ==> r == "None"
  {
    if s.Some? then s.value else "None"
  }

  /** `"{}".format(d)` of an optional date. */
  function ShowDate(d: Option<Date>): string
  {
    if d.Some? then IsoString(d.value) else "None"
  }

  /** The user story a message belongs to, as its text starts (the joint
      death rule starts `US05 & US06`). */
  function Story(m: Message): (s: string)
    ensures |s| == 4 && s[..2] == "US" && AllDigits(s[2..])
  {
    match m
    case DuplicateIndividual(_) => "US22"
    case DuplicateFamily(_) => "US22"
    case MarriageInFuture(_, _) => "US01"
    case DivorceInFuture(_, _) => "US01"
    case BirthInFuture(_) => "US01"
    case DeathInFuture(_) => "US01"
    case BothBornAfterMarriage(_, _) => "US02"
    case BornAfterMarriage(_) => "US02"
    case DeathBeforeBirth(_) => "US03"
    case DivorceBeforeMarriage(_, _) => "US04"
    case MarriedOrDivorcedAfterDeath(_, _) => "US05"
    case TooOld(_, _) => "US07"
    case BornBeforeParentsMarried(_) => "US08"
    case BornAfterParentsDivorced(_, _) => "US08"
    case BornAfterFatherDied(_, _) => "US09"
    case BornAfterMotherDied(_) => "US09"
    case MarriedTooYoung(_, _) => "US10"
    case Bigamy(_) => "US11"
    case FatherTooOld(_, _) => "US12"
    case MotherTooOld(_, _) => "US12"
    case SiblingsTooClose(_, _, _) => "US13"
    case TooManyMultipleBirths(_) => "US14"
    case TooManySiblings(_) => "US15"
    case MarriedToDescendant(_, _) => "US17"
    case MarriedToSibling(_, _) => "US18"
    case MarriedToCousin(_, _) => "US19"
    case MarriedToAuntOrUncle(_) => "US20"
    case FemaleHusband(_, _) => "US21"
    case MaleWife(_, _) => "US21"
    case DuplicateNameAndBirthday(_, _) => "US23"
    case DuplicateSpouses(_, _, _) => "US24"
    case DuplicateChild(_, _, _) => "US25"
  }

  const BirthAfterMarriage := "'s birth can not occur after their date of marriage"

  /** What follows the story number in the message. */
  function Heading(m: Message): string
  {
    if m.MarriedOrDivorcedAfterDeath? then " & US06: " else ": "
  }

  /** What follows the heading in the message. */
  function Text(m: Message): string
  {
    match m
    case DuplicateIndividual(id) => "The individual ID: " + id + ", already exists, this ID is not unique"
    case DuplicateFamily(id) => "The family ID: " + id + ", already exists, this ID is not unique"
    case MarriageInFuture(h, w) => "The marriage of " + h + " and " + w + " cannot occur after the current date."
    case DivorceInFuture(h, w) => "The divorce of " + h + " and " + w + " cannot occur after the current date."
    case BirthInFuture(n) => "The birth of " + n + " cannot occur after the current date."
    case DeathInFuture(n) => "The death of " + n + " cannot occur after the current date."
    case BothBornAfterMarriage(h, w) => h + BirthAfterMarriage + " and " + w + BirthAfterMarriage
    case BornAfterMarriage(n) => n + BirthAfterMarriage
    case DeathBeforeBirth(n) => n + "'s death can not occur before their date of birth"
    case DivorceBeforeMarriage(h, w) => h + " and " + w + "'s divorce can not occur before their date of marriage"
    case MarriedOrDivorcedAfterDeath(h, w) => "Either " + h + " or " + w + " were married or divorced after they died"
    case TooOld(n, a) => n + "'s age calculated (" + IntToString(a) + ") is over 150 years old"
    case BornBeforeParentsMarried(n) => n + " was born before their parents were married"
    case BornAfterParentsDivorced(n, k) => n + " was born " + IntToString(k) + " months after their parents were divorced"
    case BornAfterFatherDied(n, k) => n + " was born " + IntToString(k) + " months after father died"
    case BornAfterMotherDied(n) => n + " was born after mother died"
    case MarriedTooYoung(n, y) => n + " was only " + IntToString(y) + " years old when they got married"
    case Bigamy(n) => n + " is practing bigamy"
    case FatherTooOld(p, c) => p + " is over 80 years older than his child " + c
    case MotherTooOld(p, c) => p + " is over 60 years older than his child " + c
    case SiblingsTooClose(a, b, d) => "Siblings " + a + " and " + b + "'s births are " + IntToString(d) + " days apart"
    case TooManyMultipleBirths(f) => "The " + f + " family has more than five children born at the same time"
    case TooManySiblings(f) => "The " + f + " family has 15 or more siblings"
    case MarriedToDescendant(n, d) => n + " cannot be married to their descendant " + d
    case MarriedToSibling(n, s) => n + " cannot be married to their sibling " + s
    case MarriedToCousin(n, c) => n + " cannot be married to their cousin " + c
    case MarriedToAuntOrUncle(n) => n + " is married to their aunt or uncle"
    case FemaleHusband(f, n) => "The husband in the " + f + " family, (" + n + "), is a female!"
    case MaleWife(f, n) => "The wife in the " + f + " family, (" + n + "), is a male!"
    case DuplicateNameAndBirthday(n, b) => "An idividual with the name: " + n + ", and birthday: " + ShowDate(b) + ", already exists!"
    case DuplicateSpouses(h, w, d) =>
      "The family with spouses " + h + " and " + w + " married on " + ShowDate(d) + " occurs more than once in the GEDCOM file."
    case DuplicateChild(n, b, f) =>
      "There is more than one child with the name " + n + " and birthdate " + ShowDate(b) + " in family " + f
  }

  /** The exact text the checker reports. */
  function Render(m: Message): (r: string)
    ensures |r| >= 4 && r[..4] == Story(m)
  {
    var s := Story(m);
    assert (s + Heading(m) + Text(m))[..4] == s;
    s + Heading(m) + Text(m)
  }

  /** Two bigamy messages have the same text only for the same name. */
  lemma BigamyTextInjective(a: string, b: string)
    ensures Render(Bigamy(a)) == Render(Bigamy(b)) <==> a == b
  {
    BigamyText(a);
    BigamyText(b);
    FramedInjective("US11: ", a, b, " is practing bigamy");
  }

  /** The bigamy message for a name. */
  lemma BigamyText(a: string)
    ensures Render(Bigamy(a)) == "US11: " + a + " is practing bigamy"
  {
  }

  /** The same text around two strings gives the same result only for the
      same string. */
  lemma FramedInjective(p: string, a: string, b: string, q: string)
    ensures p + a + q == p + b + q <==> a == b
  {
    if p + a + q == p + b + q {
      assert |a| == |b|;
      assert (p + a + q)[|p|..|p| + |a|] == a;
      assert (p + b + q)[|p|..|p| + |b|] == b;
    }
  }

  /** Equal texts start with the same user-story tag. */
  lemma SameStory(m1: Message, m2: Message)
    requires Render(m1) == Render(m2)
    ensures Story(m1) == Story(m2)
  {
  }

  /** Bigamy is the only message kind of US11. */
  lemma OnlyBigamyIsUS11(m: Message, n: string)
    requires Story(m) == Story(Bigamy(n))
    ensures m.Bigamy?
  {
  }

  /** A message text equal to a bigamy message's text is that message: the
      text comparison `add_errors_if_new` makes and the comparison of
      messages agree on bigamy messages. */
  lemma SameTextAsBigamy(m: Message, n: string)
    ensures Render(m) == Render(Bigamy(n)) <==> m == Bigamy(n)
  {
    if Render(m) == Render(Bigamy(n)) {
      SameStory(m, Bigamy(n));
      OnlyBigamyIsUS11(m, n);
      BigamyTextInjective(m.name, n);
    }
  }
}
