/** The contact book of sync/src/domain.rs: names filed under every spelling of an address. */
module Contacts {
  import opened Prelude
  import opened Domain
  import opened Decimal
  import Text

  function LowerChar(c: char): char {
    if 'A' <= c <= 'Z' then (c as int + 32) as char else c
  }

  /** Lower case, for the letters of addresses. */
  function Lower(s: string): (t: string)
    ensures |t| == |s| && forall i :: 0 <= i < |s| ==> t[i] == LowerChar(s[i])
  {
    seq(|s|, i requires 0 <= i < |s| => LowerChar(s[i]))
  }

  function DigitsOf(s: string): (d: string)
    ensures forall i :: 0 <= i < |d| ==> IsDigit(d[i])
  {
    if s == "" then "" else DigitsOf(s[..|s| - 1]) + if IsDigit(s[|s| - 1]) then [s[|s| - 1]] else ""
  }

  /** The keys of an address: its spelling, its digits, and the other spellings of a North American number. */
  function AddressKeys(address: string): seq<string> {
    var raw := Text.Trim(address);
    var digits := DigitsOf(raw);
    [Lower(raw), digits] +
    if |digits| == 11 && digits[0] == '1' then [digits[1..], "+" + digits, "+" + digits[1..]]
    else if |digits| == 10 then ["1" + digits, "+1" + digits]
    else []
  }

  type Book = map<string, string>

  /** The entries of a book after or_insert of a name under some keys, in order. */
  function Filed(names: Book, keys: seq<string>, name: string): Book {
    if keys == [] then names
    else
      var before := Filed(names, keys[..|keys| - 1], name);
      var key := keys[|keys| - 1];
      if key in before then before else before[key := name]
  }

  predicate Valid(address: string, name: string) {
    IsPersonName(name) && Text.Trim(address) != ""
  }

  function Recorded(names: Book, address: string, name: string): Book {
    if Valid(address, name) then Filed(names, AddressKeys(address), name) else names
  }

  function FirstFiled(names: Book, keys: seq<string>): Option<string> {
    if keys == [] then None
    else if keys[0] in names then Some(names[keys[0]])
    else FirstFiled(names, keys[1..])
  }

  function Lookup(names: Book, address: string): Option<string> {
    FirstFiled(names, AddressKeys(address))
  }

  class ContactBook {
    var names: Book

    constructor ()
      ensures names == map[]
    {
      names := map[];
    }

    method Record(address: string, name: string)
      modifies this
      ensures names == Recorded(old(names), address, name)
    {
      if !IsPersonName(name) || Text.Trim(address) == "" {
        return;
      }
      var keys := AddressKeys(address);
      for i := 0 to |keys|
        invariant names == Filed(old(names), keys[..i], name)
      {
        assert keys[..i + 1][..i] == keys[..i];
        if keys[i] !in names {
          names := names[keys[i] := name];
        }
      }
      assert keys[..|keys|] == keys;
    }

    method LookUp(address: string) returns (name: Option<string>)
      ensures name == Lookup(names, address)
    {
      var keys := AddressKeys(address);
      for i := 0 to |keys|
        invariant FirstFiled(names, keys) == FirstFiled(names, keys[i..])
      {
        if keys[i] in names {
          return Some(names[keys[i]]);
        }
      }
      return None;
    }
  }

  // ------------------------------------------------------------- ten digits

  /** The ten digits of a number written with or without the country code 1. */
  function TenDigits(digits: string): Option<string> {
    if |digits| == 10 then Some(digits)
    else if |digits| == 11 && digits[0] == '1' then Some(digits[1..])
    else None
  }

  /** The number that an address spells, if it spells one. */
  function NumberOf(address: string): Option<string> {
    TenDigits(DigitsOf(address))
  }

  lemma {:induction false} DigitsOfConcat(a: string, b: string)
    ensures DigitsOf(a + b) == DigitsOf(a) + DigitsOf(b)
  {
    if b == "" {
      assert a + b == a;
    } else {
      DigitsOfConcat(a, b[..|b| - 1]);
      assert (a + b)[..|a + b| - 1] == a + b[..|b| - 1];
    }
  }

  lemma {:induction false} DigitsOfDigits(s: string)
    requires forall i :: 0 <= i < |s| ==> IsDigit(s[i])
    ensures DigitsOf(s) == s
  {
    if s != "" {
      DigitsOfDigits(s[..|s| - 1]);
      assert s == s[..|s| - 1] + [s[|s| - 1]];
    }
  }

  lemma {:induction false} DigitsOfTrim(s: string)
    ensures DigitsOf(Text.Trim(s)) == DigitsOf(s)
  {
    DigitsOfTrimStart(s);
    DigitsOfTrimEnd(Text.TrimStart(s));
  }

  lemma {:induction false} DigitsOfTrimStart(s: string)
    ensures DigitsOf(Text.TrimStart(s)) == DigitsOf(s)
  {
    if s != "" && Text.IsSpace(s[0]) {
      DigitsOfTrimStart(s[1..]);
      DigitsOfConcat([s[0]], s[1..]);
      assert s == [s[0]] + s[1..];
      assert DigitsOf([s[0]]) == "";
    }
  }

  lemma {:induction false} DigitsOfTrimEnd(s: string)
    ensures DigitsOf(Text.TrimEnd(s)) == DigitsOf(s)
  {
    if s != "" && Text.IsSpace(s[|s| - 1]) {
      DigitsOfTrimEnd(s[..|s| - 1]);
    }
  }

  lemma {:induction false} DigitsOfLower(s: string)
    ensures DigitsOf(Lower(s)) == DigitsOf(s)
  {
    if s != "" {
      DigitsOfLower(s[..|s| - 1]);
      assert Lower(s)[..|s| - 1] == Lower(s[..|s| - 1]);
    }
  }

  /** Every key of an address spells the number that the address spells, and none if it spells none. */
  lemma {:induction false} KeysSpellTheNumber(address: string, i: nat)
    requires i < |AddressKeys(address)|
    ensures NumberOf(AddressKeys(address)[i]) == NumberOf(address)
  {
    hide DigitsOf, Lower, Text.Trim;
    var raw := Text.Trim(address);
    var digits := DigitsOf(raw);
    DigitsOfTrim(address);
    DigitsOfLower(raw);
    DigitsOfDigits(digits);
    if |digits| == 11 && digits[0] == '1' && i >= 2 {
      DigitsOfDigits(digits[1..]);
      DigitsAfterPlus(digits);
      DigitsAfterPlus(digits[1..]);
    } else if |digits| == 10 && i >= 2 {
      DigitsOfDigits("1" + digits);
      DigitsAfterPlus("1" + digits);
      assert "+" + ("1" + digits) == "+1" + digits;
      assert ("1" + digits)[1..] == digits;
    }
  }

  lemma {:induction false} DigitsAfterPlus(s: string)
    ensures DigitsOf("+" + s) == DigitsOf(s)
  {
    DigitsOfConcat("+", s);
    assert DigitsOf("+") == DigitsOf("") + "" == "";
  }

  /** An address that spells a number is filed under the bare ten digits and under the eleven. */
  lemma {:induction false} DigitsAmongKeys(address: string)
    requires NumberOf(address).Some?
    ensures NumberOf(address).value in AddressKeys(address) && "1" + NumberOf(address).value in AddressKeys(address)
  {
    DigitsOfTrim(address);
    var digits := DigitsOf(Text.Trim(address));
    assert AddressKeys(address)[1] == digits;
    if |digits| == 10 {
      assert AddressKeys(address)[2] == "1" + digits;
    } else {
      assert AddressKeys(address)[2] == digits[1..];
      assert digits == "1" + digits[1..];
    }
  }

  // ------------------------------------------------------------- the run of records

  /** What record asks for: the name of a person, and an address that is not only white space. */
  ghost predicate Recordable(address: string, name: string) {
    IsPersonName(name) && exists i :: 0 <= i < |address| && !Text.IsSpace(address[i])
  }

  /** Its guard refuses nothing else, whatever the address spells. */
  lemma {:induction false} ValidIsRecordable(address: string, name: string)
    ensures Valid(address, name) <==> Recordable(address, name)
  {
    Text.BlankTrims(address);
  }

  lemma {:induction false} RecordedMeaning(names: Book, address: string, name: string)
    ensures Recorded(names, address, name) ==
            if Recordable(address, name) then Filed(names, AddressKeys(address), name) else names
  {
    ValidIsRecordable(address, name);
  }

  /** One call of record. */
  datatype Entry = Entry(address: string, name: string)

  function BookOf(entries: seq<Entry>): Book {
    if entries == [] then map[]
    else
      var last := entries[|entries| - 1];
      Recorded(BookOf(entries[..|entries| - 1]), last.address, last.name)
  }

  /** The entry at i can be recorded, and its address spells the number. */
  ghost predicate Names(entries: seq<Entry>, i: nat, number: string)
    requires i < |entries|
  {
    Recordable(entries[i].address, entries[i].name) && NumberOf(entries[i].address) == Some(number)
  }

  /** or_insert keeps what was filed first, and files the name under every other key. */
  lemma {:induction false} FiledMeaning(names: Book, keys: seq<string>, name: string, key: string)
    ensures key in Filed(names, keys, name) <==> key in names || key in keys
    ensures key in Filed(names, keys, name) ==>
              Filed(names, keys, name)[key] == if key in names then names[key] else name
  {
    if keys != [] {
      FiledMeaning(names, keys[..|keys| - 1], name, key);
      assert keys == keys[..|keys| - 1] + [keys[|keys| - 1]];
    }
  }

  /** The addresses have the same digits, or spell the same number. */
  predicate Match(a: string, b: string) {
    DigitsOf(a) == DigitsOf(b) || (NumberOf(a).Some? && NumberOf(a) == NumberOf(b))
  }

  /** The entry at i can be recorded, and its address matches. */
  ghost predicate Matches(entries: seq<Entry>, i: nat, address: string)
    requires i < |entries|
  {
    Recordable(entries[i].address, entries[i].name) && Match(entries[i].address, address)
  }

  /** Every key of an address matches the address. */
  lemma {:induction false} KeysMatch(address: string, i: nat)
    requires i < |AddressKeys(address)|
    ensures Match(address, AddressKeys(address)[i])
  {
    hide DigitsOf, Lower, Text.Trim;
    var raw := Text.Trim(address);
    DigitsOfTrim(address);
    DigitsOfLower(raw);
    DigitsOfDigits(DigitsOf(raw));
    KeysSpellTheNumber(address, i);
  }

  /** A name filed under a key was recorded for an address that matches the key. */
  lemma {:induction false} BookMatches(entries: seq<Entry>, key: string)
    requires key in BookOf(entries)
    ensures exists i :: 0 <= i < |entries| && Matches(entries, i, key) && entries[i].name == BookOf(entries)[key]
  {
    hide DigitsOf;
    var front, last := entries[..|entries| - 1], entries[|entries| - 1];
    var keys := AddressKeys(last.address);
    RecordedMeaning(BookOf(front), last.address, last.name);
    FiledMeaning(BookOf(front), keys, last.name, key);
    if key in BookOf(front) {
      BookMatches(front, key);
      var i :| 0 <= i < |front| && Matches(front, i, key) && front[i].name == BookOf(front)[key];
      assert entries[i] == front[i];
      assert Matches(entries, i, key);
    } else {
      var k :| 0 <= k < |keys| && keys[k] == key;
      KeysMatch(last.address, k);
      assert Matches(entries, |entries| - 1, key);
    }
  }

  /** Every key of an entry that can be recorded stays in the book. */
  lemma {:induction false} KeysAreFiled(entries: seq<Entry>, i: nat, key: string)
    requires i < |entries| && Recordable(entries[i].address, entries[i].name) && key in AddressKeys(entries[i].address)
    ensures key in BookOf(entries)
  {
    var front, last := entries[..|entries| - 1], entries[|entries| - 1];
    RecordedMeaning(BookOf(front), last.address, last.name);
    FiledMeaning(BookOf(front), AddressKeys(last.address), last.name, key);
    if i < |front| {
      KeysAreFiled(front, i, key);
    }
  }

  /** Addresses that match have a key in common. */
  lemma {:induction false} MatchSharesAKey(a: string, b: string) returns (key: string)
    requires Match(a, b)
    ensures key in AddressKeys(a) && key in AddressKeys(b)
  {
    if DigitsOf(a) == DigitsOf(b) {
      key := DigitsOf(a);
      SecondKey(a);
      SecondKey(b);
    } else {
      key := NumberOf(a).value;
      DigitsAmongKeys(a);
      DigitsAmongKeys(b);
    }
  }

  /**
   * What a lookup answers, for every address: after any calls of record it finds a name exactly
   * when some call could be recorded for an address that matches, and only a name of such a call.
   */
  lemma {:induction false} LookupByDigits(entries: seq<Entry>, address: string)
    ensures var found := Lookup(BookOf(entries), address);
            && (found.Some? <==> exists i :: 0 <= i < |entries| && Matches(entries, i, address))
            && (found.Some? ==> exists i :: 0 <= i < |entries| && Matches(entries, i, address)
                                            && entries[i].name == found.value)
  {
    hide DigitsOf;
    var keys, book := AddressKeys(address), BookOf(entries);
    FirstFiledMeaning(book, keys);
    if Lookup(book, address).Some? {
      var k :| 0 <= k < |keys| && keys[k] in book && book[keys[k]] == Lookup(book, address).value;
      KeysMatch(address, k);
      BookMatches(entries, keys[k]);
      var i :| 0 <= i < |entries| && Matches(entries, i, keys[k]) && entries[i].name == book[keys[k]];
      assert Matches(entries, i, address);
    }
    if i :| 0 <= i < |entries| && Matches(entries, i, address) {
      var key := MatchSharesAKey(entries[i].address, address);
      KeysAreFiled(entries, i, key);
      var k :| 0 <= k < |keys| && keys[k] == key;
      assert keys[k] in book;
    }
  }

  /** A name filed under a key that spells a number was recorded for that number. */
  lemma {:induction false} BookSound(entries: seq<Entry>, key: string)
    requires key in BookOf(entries) && NumberOf(key).Some?
    ensures exists i :: 0 <= i < |entries| && Names(entries, i, NumberOf(key).value)
                        && entries[i].name == BookOf(entries)[key]
  {
    BookMatches(entries, key);
    var i :| 0 <= i < |entries| && Matches(entries, i, key) && entries[i].name == BookOf(entries)[key];
    assert Names(entries, i, NumberOf(key).value);
  }

  /** The entry at i is the first one for the number. */
  ghost predicate FirstNamed(entries: seq<Entry>, i: nat, number: string) {
    && i < |entries| && Names(entries, i, number)
    && forall j :: 0 <= j < i ==> !Names(entries, j, number)
  }

  lemma {:induction false} FirstInFront(entries: seq<Entry>, i: nat, number: string)
    requires FirstNamed(entries, i, number) && i < |entries| - 1
    ensures FirstNamed(entries[..|entries| - 1], i, number)
  {
    var front := entries[..|entries| - 1];
    forall j | 0 <= j <= i ensures Names(front, j, number) <==> Names(entries, j, number) {
      assert front[j] == entries[j];
    }
  }

  /** Before the first entry for a number nothing is filed under a key that spells it. */
  lemma {:induction false} NotFiledBefore(entries: seq<Entry>, key: string, number: string)
    requires entries != [] && FirstNamed(entries, |entries| - 1, number) && NumberOf(key) == Some(number)
    ensures key !in BookOf(entries[..|entries| - 1])
  {
    var front := entries[..|entries| - 1];
    if key in BookOf(front) {
      BookSound(front, key);
      var j :| 0 <= j < |front| && Names(front, j, number) && front[j].name == BookOf(front)[key];
      assert Names(entries, j, number);
      assert false;
    }
  }

  /** A key that every address of a number has holds the name recorded first for the number. */
  lemma {:induction false} FirstIsFiled(entries: seq<Entry>, key: string, number: string, i: nat)
    requires FirstNamed(entries, i, number) && NumberOf(key) == Some(number)
    requires key in AddressKeys(entries[i].address)
    ensures key in BookOf(entries) && BookOf(entries)[key] == entries[i].name
  {
    var front, last := entries[..|entries| - 1], entries[|entries| - 1];
    RecordedMeaning(BookOf(front), last.address, last.name);
    FiledMeaning(BookOf(front), AddressKeys(last.address), last.name, key);
    if i < |front| {
      FirstInFront(entries, i, number);
      FirstIsFiled(front, key, number, i);
    } else {
      NotFiledBefore(entries, key, number);
    }
  }

  /** The ten digits and the eleven both hold the name recorded first for the number. */
  lemma {:induction false} FiledUnderDigits(entries: seq<Entry>, number: string, i: nat)
    requires FirstNamed(entries, i, number)
    ensures number in BookOf(entries) && BookOf(entries)[number] == entries[i].name
    ensures "1" + number in BookOf(entries) && BookOf(entries)["1" + number] == entries[i].name
  {
    DigitsAmongKeys(entries[i].address);
    NumberSpellsItself(entries[i].address, number);
    FirstIsFiled(entries, number, number, i);
    FirstIsFiled(entries, "1" + number, number, i);
  }

  lemma {:induction false} NumberSpellsItself(address: string, number: string)
    requires NumberOf(address) == Some(number)
    ensures NumberOf(number) == Some(number) && NumberOf("1" + number) == Some(number)
  {
    DigitsOfDigits(number);
    DigitsOfDigits("1" + number);
    assert ("1" + number)[1..] == number;
  }

  lemma {:induction false} FirstFiledMeaning(names: Book, keys: seq<string>)
    ensures FirstFiled(names, keys).Some? <==> exists k :: 0 <= k < |keys| && keys[k] in names
    ensures FirstFiled(names, keys).Some? ==>
              exists k :: 0 <= k < |keys| && keys[k] in names && names[keys[k]] == FirstFiled(names, keys).value
                          && forall j :: 0 <= j < k ==> keys[j] !in names
  {
    if keys != [] && keys[0] !in names {
      var rest := keys[1..];
      FirstFiledMeaning(names, rest);
      assert forall k :: 0 <= k < |rest| ==> rest[k] == keys[k + 1];
      if FirstFiled(names, rest).Some? {
        var k :| 0 <= k < |rest| && rest[k] in names && names[rest[k]] == FirstFiled(names, rest).value
                 && forall j :: 0 <= j < k ==> rest[j] !in names;
        assert keys[k + 1] in names;
        assert forall j :: 0 <= j < k + 1 ==> keys[j] !in names;
      }
    }
  }

  /**
   * After any calls of record, any spelling of a ten-digit number finds a name exactly when
   * a call could be recorded for the number, and only a name recorded for it.
   */
  lemma {:induction false} LookupByNumber(entries: seq<Entry>, address: string)
    requires NumberOf(address).Some?
    ensures var found := Lookup(BookOf(entries), address);
            && (found.Some? <==> exists i :: 0 <= i < |entries| && Names(entries, i, NumberOf(address).value))
            && (found.Some? ==> exists i :: 0 <= i < |entries| && Names(entries, i, NumberOf(address).value)
                                            && entries[i].name == found.value)
  {
    hide DigitsOf;
    LookupByDigits(entries, address);
    forall i | 0 <= i < |entries|
      ensures Matches(entries, i, address) <==> Names(entries, i, NumberOf(address).value)
    {
    }
  }

  /**
   * The name found is the one filed under the exact spelling, if there is one; else the one
   * recorded first for the number, so all other spellings agree.
   */
  lemma {:induction false} LookupAnswer(entries: seq<Entry>, address: string, i: nat)
    requires NumberOf(address).Some? && FirstNamed(entries, i, NumberOf(address).value)
    ensures var spelling := Lower(Text.Trim(address));
            Lookup(BookOf(entries), address) ==
            Some(if spelling in BookOf(entries) then BookOf(entries)[spelling] else entries[i].name)
  {
    var number := NumberOf(address).value;
    var keys, book := AddressKeys(address), BookOf(entries);
    var digits := DigitsOf(Text.Trim(address));
    DigitsOfTrim(address);
    assert keys[0] == Lower(Text.Trim(address)) && keys[1] == digits;
    assert FirstFiled(book, keys) ==
           if keys[0] in book then Some(book[keys[0]]) else FirstFiled(book, keys[1..]);
    FiledUnderDigits(entries, number, i);
    assert keys[1..][0] == digits;
    assert digits == number || digits == "1" + number;
  }

  lemma {:induction false} SecondKey(address: string)
    ensures |AddressKeys(address)| >= 2 && AddressKeys(address)[1] == DigitsOf(address)
  {
    DigitsOfTrim(address);
  }

  // ------------------------------------------------------ where lookups are sound

  /** A letter, and the same letter in lower case. */
  predicate Cases(upper: char, lower: char) {
    'A' <= upper <= 'Z' && lower as int == upper as int + 32
  }

  predicate SameButCase(a: string, b: string) {
    |a| == |b| && forall i :: 0 <= i < |a| ==> a[i] == b[i] || Cases(a[i], b[i]) || Cases(b[i], a[i])
  }

  /** The addresses are the same but for case and white space around them, or spell the same number. */
  predicate Same(a: string, b: string) {
    || SameButCase(Text.Trim(a), Text.Trim(b))
    || (NumberOf(a).Some? && NumberOf(a) == NumberOf(b))
  }

  lemma {:induction false} LowerMeaning(a: string, b: string)
    ensures Lower(a) == Lower(b) <==> SameButCase(a, b)
  {
    if SameButCase(a, b) {
      forall i | 0 <= i < |a| ensures Lower(a)[i] == Lower(b)[i] {
      }
      assert Lower(a) == Lower(b);
    }
    if Lower(a) == Lower(b) {
      forall i | 0 <= i < |a| ensures a[i] == b[i] || Cases(a[i], b[i]) || Cases(b[i], a[i]) {
        assert Lower(a)[i] == Lower(b)[i];
      }
    }
  }

  /** Whatever was recorded, a lookup of the address only finds a name recorded for the same address. */
  ghost predicate Sound(address: string) {
    forall entries :: SoundAfter(entries, address)
  }

  ghost predicate SoundAfter(entries: seq<Entry>, address: string) {
    Lookup(BookOf(entries), address).Some? ==>
      exists i :: 0 <= i < |entries| && Recordable(entries[i].address, entries[i].name)
                  && Same(entries[i].address, address) && entries[i].name == Lookup(BookOf(entries), address).value
  }

  lemma {:induction false} SameMatches(a: string, b: string)
    requires Same(a, b)
    ensures Match(a, b)
  {
    DigitsOfTrim(a);
    DigitsOfTrim(b);
    DigitsOfLower(Text.Trim(a));
    DigitsOfLower(Text.Trim(b));
    LowerMeaning(Text.Trim(a), Text.Trim(b));
  }

  /**
   * In the other direction nothing is lost: once the name of a person was recorded for an address that
   * is not white space, a lookup of that address, or of another spelling of its number, always finds a
   * name, whatever else was recorded before or after.
   */
  lemma {:induction false} SameIsFound(entries: seq<Entry>, i: nat, k: nat, address: string)
    requires i < |entries| && IsPersonName(entries[i].name)
    requires k < |entries[i].address| && !Text.IsSpace(entries[i].address[k])
    requires Same(entries[i].address, address)
    ensures Lookup(BookOf(entries), address).Some?
  {
    SameMatches(entries[i].address, address);
    LookupByDigits(entries, address);
    assert Matches(entries, i, address);
  }

  /** Addresses with the same digits, or with none, share a key: a lookup of one finds the name of the other. */
  lemma {:induction false} SameDigitsShareAKey(recorded: string, other: string, name: string)
    requires Recordable(recorded, name) && DigitsOf(recorded) == DigitsOf(other)
    ensures Lookup(BookOf([Entry(recorded, name)]), other) == Some(name)
  {
    hide DigitsOf;
    var entries := [Entry(recorded, name)];
    LookupByDigits(entries, other);
    assert Matches(entries, 0, other);
  }

  /** A different address with the same digits. */
  function Double(address: string): string {
    var c := if Text.Trim(address) != "" && Lower(Text.Trim(address))[0] == 'x' then 'y' else 'x';
    [c] + DigitsOf(address) + [c]
  }

  lemma {:induction false} DoubleMeaning(address: string)
    ensures Text.Trim(Double(address)) == Double(address) && DigitsOf(Double(address)) == DigitsOf(address)
    ensures Lower(Double(address)) != Lower(Text.Trim(address))
  {
    var d := Double(address);
    var c := d[0];
    assert d[|d| - 1] == c && !Text.IsSpace(c) && !IsDigit(c);
    assert Text.TrimStart(d) == d && Text.TrimEnd(d) == d;
    DigitsOfConcat([c], DigitsOf(address));
    DigitsOfDigits(DigitsOf(address));
    assert DigitsOf([c]) == DigitsOf("") + "" == "";
    DigitsOfConcat([c] + DigitsOf(address), [c]);
    assert Lower(d)[0] == c;
  }

  /**
   * Lookups of an address are sound exactly if it spells a number. For any other one there is a
   * different address under which a name can be recorded that a lookup of this one finds.
   */
  lemma {:induction false} SoundForNumbers(address: string, name: string)
    requires IsPersonName(name)
    ensures Sound(address) <==> NumberOf(address).Some?
  {
    if NumberOf(address).Some? {
      forall entries ensures SoundAfter(entries, address) {
        NumberIsSound(entries, address);
      }
    } else {
      var other := Double(address);
      DoubleMeaning(address);
      LowerMeaning(Text.Trim(other), Text.Trim(address));
      assert !Text.IsSpace(other[0]);
      SameDigitsShareAKey(other, address, name);
      assert !SoundAfter([Entry(other, name)], address);
    }
  }

  lemma {:induction false} NumberIsSound(entries: seq<Entry>, address: string)
    requires NumberOf(address).Some?
    ensures SoundAfter(entries, address)
  {
    LookupByNumber(entries, address);
    if Lookup(BookOf(entries), address).Some? {
      var i :| 0 <= i < |entries| && Names(entries, i, NumberOf(address).value)
               && entries[i].name == Lookup(BookOf(entries), address).value;
      assert Same(entries[i].address, address);
    }
  }
}
