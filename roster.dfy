/** The guild-roster spreadsheet behind the raid sign-up form: an
    `Availability` sheet with one row per Discord user and a `Characters`
    sheet with any number of rows per user. Each sheet is the sequence of
    its data rows, header excluded: data row `k` is sheet row `k + 2`.
    Discord and character names are compared case-insensitively: both
    sides go through `lower`, the script's `toLowerCase()`, which the model
    takes as a given case mapping. */
module Roster {
  import opened Api
  import opened Text
  import opened Query

  /** `new Date()`, supplied by the caller. */
  type Time = int

  /** The names the officer utilities ship with until an officer edits
      them. */
  const DiscordPlaceholder := "ENTER_DISCORD_NAME_HERE"
  const CharacterPlaceholder := "ENTER_CHARACTER_NAME_HERE"

  /** The day flags of the form, each one absent, true or false. */
  datatype PostedWeek = PostedWeek(
    monday: Option<bool>, tuesday: Option<bool>, wednesday: Option<bool>,
    thursday: Option<bool>, friday: Option<bool>, saturday: Option<bool>,
    sunday: Option<bool>)

  /** A form submission (the JSON body of a POST). */
  datatype Post = Post(
    discordName: string, characterName: string, className: string,
    spec: string, role: string, mainAlt: string,
    availability: Option<PostedWeek>, availabilityNotes: Option<string>)

  datatype Week = Week(
    monday: bool, tuesday: bool, wednesday: bool, thursday: bool,
    friday: bool, saturday: bool, sunday: bool)

  /** A row of the `Availability` sheet. */
  datatype Availability = Availability(discord: string, week: Week, notes: string, updated: Time)

  /** A row of the `Characters` sheet. */
  datatype Character = Character(
    discord: string, character: string, className: string, spec: string,
    role: string, mainAlt: string, created: Time, updated: Time)

  /** `flag || false`: a missing flag is false. */
  function Flag(posted: Option<bool>): bool {
    posted == Some(true)
  }

  /** `data.availability || {}` with every day flag defaulted. */
  function WeekOf(posted: Option<PostedWeek>): Week {
    if posted.None? then Week(false, false, false, false, false, false, false)
    else
      var w := posted.value;
      Week(Flag(w.monday), Flag(w.tuesday), Flag(w.wednesday), Flag(w.thursday),
           Flag(w.friday), Flag(w.saturday), Flag(w.sunday))
  }

  /** The row `updateAvailability` writes for a submission. */
  function AvailabilityOf(post: Post, now: Time): Availability {
    Availability(post.discordName, WeekOf(post.availability), OrEmpty(post.availabilityNotes), now)
  }

  /** The row `addCharacter` appends for a submission. */
  function CharacterOf(post: Post, now: Time): Character {
    Character(post.discordName, post.characterName, post.className, post.spec,
              post.role, post.mainAlt, now, now)
  }

  // ----------------------------------------------------------- availability

  /** The first availability row of the user named `name`, or -1. */
  function FirstNamed(lower: CaseMap, rows: seq<Availability>, name: string): (k: int)
    ensures -1 <= k < |rows|
    ensures k >= 0 ==> SameFolded(lower, rows[k].discord, name)
    ensures k >= 0 ==> forall j :: 0 <= j < k ==> !SameFolded(lower, rows[j].discord, name)
    ensures k < 0 ==> forall j :: 0 <= j < |rows| ==> !SameFolded(lower, rows[j].discord, name)
  {
    if rows == [] then -1
    else if SameFolded(lower, rows[0].discord, name) then 0
    else
      var k := FirstNamed(lower, rows[1..], name);
      if k < 0 then -1 else k + 1
  }

  /** The sheet after writing `row`: over the first row of the same user
      when there is one, else as a new last row. */
  function Upserted(lower: CaseMap, rows: seq<Availability>, row: Availability): (r: seq<Availability>)
    ensures FirstNamed(lower, rows, row.discord) >= 0 ==> |r| == |rows|
    ensures FirstNamed(lower, rows, row.discord) >= 0 ==>
      && r[FirstNamed(lower, rows, row.discord)] == row
      && forall i :: 0 <= i < |rows| && i != FirstNamed(lower, rows, row.discord) ==> r[i] == rows[i]
    ensures FirstNamed(lower, rows, row.discord) < 0 ==> r == rows + [row]
  {
    var k := FirstNamed(lower, rows, row.discord);
    if k >= 0 then rows[k := row] else rows + [row]
  }

  /** No two availability rows belong to the same user. */
  ghost predicate OneRowPerUser(lower: CaseMap, rows: seq<Availability>) {
    forall i, j :: 0 <= i < j < |rows| ==> !SameFolded(lower, rows[i].discord, rows[j].discord)
  }

  /** Writing a row keeps one row per user; afterwards the user has exactly
      that row, and every other user's row is where it was. */
  lemma UpsertKeepsOneRowPerUser(lower: CaseMap, rows: seq<Availability>, row: Availability)
    requires OneRowPerUser(lower, rows)
    ensures OneRowPerUser(lower, Upserted(lower, rows, row))
    ensures exists k :: 0 <= k < |Upserted(lower, rows, row)| && Upserted(lower, rows, row)[k] == row
    ensures forall i :: 0 <= i < |rows| && !SameFolded(lower, rows[i].discord, row.discord) ==>
      Upserted(lower, rows, row)[i] == rows[i]
    ensures forall i :: 0 <= i < |Upserted(lower, rows, row)| && Upserted(lower, rows, row)[i] != row ==>
      !SameFolded(lower, Upserted(lower, rows, row)[i].discord, row.discord)
  {
    var k := FirstNamed(lower, rows, row.discord);
    var r := Upserted(lower, rows, row);
    if k >= 0 {
      assert r == rows[k := row];
      forall i | 0 <= i < |rows| && i != k ensures !SameFolded(lower, rows[i].discord, row.discord) {
        if i < k {
          assert !SameFolded(lower, rows[i].discord, rows[k].discord);
        } else {
          assert !SameFolded(lower, rows[k].discord, rows[i].discord);
        }
      }
      assert r[k] == row;
    } else {
      assert r[|rows|] == row;
    }
  }

  // --------------------------------------------------------------- characters

  /** A `Main` row of the user named `name`. */
  predicate MainOf(lower: CaseMap, name: string, c: Character) {
    SameFolded(lower, c.discord, name) && c.mainAlt == "Main"
  }

  /** The same character, whatever its Main/Alt flag and update time. */
  predicate SameCharacter(a: Character, b: Character) {
    a.(mainAlt := b.mainAlt, updated := b.updated) == b
  }

  /** `demoteExistingMain`: every `Main` row of the user becomes an `Alt`
      stamped `now`. */
  function Demoted(lower: CaseMap, rows: seq<Character>, name: string, now: Time): (r: seq<Character>)
    ensures |r| == |rows|
    ensures forall i :: 0 <= i < |r| ==> !MainOf(lower, name, r[i])
    ensures forall i :: 0 <= i < |r| && !MainOf(lower, name, rows[i]) ==> r[i] == rows[i]
    ensures forall i :: 0 <= i < |r| && MainOf(lower, name, rows[i]) ==>
      r[i].mainAlt == "Alt" && r[i].updated == now && SameCharacter(r[i], rows[i])
  {
    seq(|rows|, i requires 0 <= i < |rows| =>
      if MainOf(lower, name, rows[i]) then rows[i].(mainAlt := "Alt", updated := now) else rows[i])
  }

  /** The `Characters` sheet after a submission: with a `Main`, the user's
      other mains are demoted first; then the new character is appended. */
  function Posted(lower: CaseMap, rows: seq<Character>, post: Post, now: Time): seq<Character> {
    (if post.mainAlt == "Main" then Demoted(lower, rows, post.discordName, now) else rows)
      + [CharacterOf(post, now)]
  }

  function MainsOf(lower: CaseMap, name: string): Character -> bool {
    (c: Character) => MainOf(lower, name, c)
  }

  /** After a submission of a `Main`, the user has exactly one main: the
      row just appended. */
  lemma PostedMainIsOnlyMain(lower: CaseMap, rows: seq<Character>, post: Post, now: Time)
    requires post.mainAlt == "Main"
    ensures |Posted(lower, rows, post, now)| == |rows| + 1
    ensures MainOf(lower, post.discordName, Posted(lower, rows, post, now)[|rows|])
    ensures forall i :: 0 <= i < |rows| ==> !MainOf(lower, post.discordName, Posted(lower, rows, post, now)[i])
    ensures Count(Posted(lower, rows, post, now), MainsOf(lower, post.discordName)) == 1
  {
    var r := Posted(lower, rows, post, now);
    var d := Demoted(lower, rows, post.discordName, now);
    assert r == d + [CharacterOf(post, now)];
    forall i | 0 <= i < |r| && i != |rows| ensures !MainsOf(lower, post.discordName)(r[i]) {
      assert r[i] == d[i];
    }
    CountOne(r, |rows|, MainsOf(lower, post.discordName));
  }

  /** A submission of an `Alt` (or anything but `Main`) only appends. */
  lemma PostedAltOnlyAppends(lower: CaseMap, rows: seq<Character>, post: Post, now: Time)
    requires post.mainAlt != "Main"
    ensures Posted(lower, rows, post, now) == rows + [CharacterOf(post, now)]
    ensures Count(Posted(lower, rows, post, now), MainsOf(lower, post.discordName)) ==
      Count(rows, MainsOf(lower, post.discordName))
  {
    FilterSnoc(rows, CharacterOf(post, now), MainsOf(lower, post.discordName));
  }

  // ----------------------------------------------------------------- cleanup

  /** The duplicate key of a character row: `discord|character`, the
      joined string lower-cased as a whole. */
  function Key(lower: CaseMap, c: Character): string {
    lower(c.discord + "|" + c.character)
  }

  /** The keys of the rows from `lo` down to the bottom of the sheet. */
  function KeysFrom(lower: CaseMap, rows: seq<Character>, lo: nat): set<string> {
    set j | lo <= j < |rows| :: Key(lower, rows[j])
  }

  /** A row with the same key lies further down the sheet. */
  predicate HasLater(lower: CaseMap, rows: seq<Character>, k: nat)
    requires k < |rows|
  {
    Key(lower, rows[k]) in KeysFrom(lower, rows, k + 1)
  }

  /** Each target is in range at the moment it is deleted. */
  predicate InRange(n: nat, ds: seq<nat>) {
    forall t :: 0 <= t < |ds| ==> ds[t] + t < n
  }

  ghost predicate StrictlyDescending(ds: seq<nat>) {
    forall s, t :: 0 <= s < t < |ds| ==> ds[s] > ds[t]
  }

  /** The rows from `lo` on that an older duplicate of a later row, listed
      bottom-up as the scan meets them. */
  function DuplicatesFrom(lower: CaseMap, rows: seq<Character>, lo: nat): (ds: seq<nat>)
    requires lo <= |rows|
    ensures |ds| <= |rows| - lo
    ensures StrictlyDescending(ds)
    ensures InRange(|rows|, ds)
    ensures forall t :: 0 <= t < |ds| ==> lo <= ds[t] < |rows|
    decreases |rows| - lo
  {
    if lo == |rows| then []
    else DuplicatesFrom(lower, rows, lo + 1) + (if HasLater(lower, rows, lo) then [lo] else [])
  }

  /** The rows collected are exactly those with a copy further down. */
  lemma {:induction false} DuplicatesAreOlderCopies(lower: CaseMap, rows: seq<Character>, lo: nat)
    requires lo <= |rows|
    ensures forall t :: 0 <= t < |DuplicatesFrom(lower, rows, lo)| ==> HasLater(lower, rows, DuplicatesFrom(lower, rows, lo)[t])
    ensures forall k :: lo <= k < |rows| && HasLater(lower, rows, k) ==> k in DuplicatesFrom(lower, rows, lo)
    decreases |rows| - lo
  {
    if lo < |rows| {
      DuplicatesAreOlderCopies(lower, rows, lo + 1);
      var later := DuplicatesFrom(lower, rows, lo + 1);
      var ds := DuplicatesFrom(lower, rows, lo);
      if HasLater(lower, rows, lo) {
        assert ds == later + [lo];
        assert ds[|later|] == lo;
      } else {
        assert ds == later;
      }
    }
  }

  /** `deleteRow` of each target in turn. */
  function DeleteAll<T>(rows: seq<T>, ds: seq<nat>): (r: seq<T>)
    requires InRange(|rows|, ds)
    ensures |r| == |rows| - |ds|
  {
    if ds == [] then rows
    else RemoveAt(DeleteAll(rows, ds[..|ds| - 1]), ds[|ds| - 1])
  }

  /** Deleting one more target after the others. */
  lemma DeleteAllSnoc<T>(rows: seq<T>, ds: seq<nat>, x: nat)
    requires InRange(|rows|, ds) && x + |ds| < |rows|
    ensures InRange(|rows|, ds + [x])
    ensures DeleteAll(rows, ds + [x]) == RemoveAt(DeleteAll(rows, ds), x)
  {
    assert (ds + [x])[..|ds|] == ds;
    assert (ds + [x])[|ds|] == x;
    assert forall t :: 0 <= t < |ds| ==> ds[t] == (ds + [x])[t];
  }

  /** Deleting the targets one by one: the step from the first `t` to the
      first `t + 1`. */
  lemma DeleteNext<T>(rows: seq<T>, ds: seq<nat>, t: nat)
    requires InRange(|rows|, ds) && t < |ds|
    ensures InRange(|rows|, ds[..t]) && InRange(|rows|, ds[..t + 1])
    ensures ds[t] < |DeleteAll(rows, ds[..t])|
    ensures DeleteAll(rows, ds[..t + 1]) == RemoveAt(DeleteAll(rows, ds[..t]), ds[t])
  {
    assert ds[..t] + [ds[t]] == ds[..t + 1];
    assert forall u :: 0 <= u < t ==> ds[..t][u] == ds[u];
    DeleteAllSnoc(rows, ds[..t], ds[t]);
  }

  /** The rows from `lo` on with no duplicate further down: the newest row
      of each key. */
  function KeptFrom(lower: CaseMap, rows: seq<Character>, lo: nat): seq<Character>
    requires lo <= |rows|
    decreases |rows| - lo
  {
    if lo == |rows| then []
    else (if HasLater(lower, rows, lo) then [] else [rows[lo]]) + KeptFrom(lower, rows, lo + 1)
  }

  /** The keys of a run of character rows. */
  function KeySet(lower: CaseMap, cs: seq<Character>): set<string> {
    set i | 0 <= i < |cs| :: Key(lower, cs[i])
  }

  /** The kept rows hold every key of the rows they come from. */
  lemma {:induction false} KeptFromHasEveryKey(lower: CaseMap, rows: seq<Character>, lo: nat)
    requires lo <= |rows|
    ensures KeySet(lower, KeptFrom(lower, rows, lo)) == KeysFrom(lower, rows, lo)
    decreases |rows| - lo
  {
    if lo < |rows| {
      KeptFromHasEveryKey(lower, rows, lo + 1);
      var tail := KeptFrom(lower, rows, lo + 1);
      assert KeysFrom(lower, rows, lo) == {Key(lower, rows[lo])} + KeysFrom(lower, rows, lo + 1);
      if HasLater(lower, rows, lo) {
        assert KeptFrom(lower, rows, lo) == tail;
      } else {
        var r := [rows[lo]] + tail;
        assert KeptFrom(lower, rows, lo) == r;
        forall x | x in KeySet(lower, r) ensures x in KeysFrom(lower, rows, lo) {
          var i :| 0 <= i < |r| && Key(lower, r[i]) == x;
          if i > 0 {
            assert r[i] == tail[i - 1];
          }
        }
        forall x | x in KeysFrom(lower, rows, lo) ensures x in KeySet(lower, r) {
          if x != Key(lower, rows[lo]) {
            var i :| 0 <= i < |tail| && Key(lower, tail[i]) == x;
            assert r[i + 1] == tail[i];
          } else {
            assert r[0] == rows[lo];
          }
        }
      }
    }
  }

  /** No key is kept twice. */
  lemma {:induction false} KeptFromKeysDistinct(lower: CaseMap, rows: seq<Character>, lo: nat)
    requires lo <= |rows|
    ensures forall i, j :: 0 <= i < j < |KeptFrom(lower, rows, lo)| ==>
      Key(lower, KeptFrom(lower, rows, lo)[i]) != Key(lower, KeptFrom(lower, rows, lo)[j])
    decreases |rows| - lo
  {
    if lo < |rows| {
      KeptFromKeysDistinct(lower, rows, lo + 1);
      var tail := KeptFrom(lower, rows, lo + 1);
      if HasLater(lower, rows, lo) {
        assert KeptFrom(lower, rows, lo) == tail;
      } else {
        KeptFromHasEveryKey(lower, rows, lo + 1);
        var r := [rows[lo]] + tail;
        assert KeptFrom(lower, rows, lo) == r;
        forall i, j | 0 <= i < j < |r| ensures Key(lower, r[i]) != Key(lower, r[j]) {
          assert r[j] == tail[j - 1];
          if i == 0 {
            assert Key(lower, tail[j - 1]) in KeySet(lower, tail);
          } else {
            assert r[i] == tail[i - 1];
          }
        }
      }
    }
  }

  /** Every row with no copy further down is kept. */
  lemma {:induction false} KeptFromKeepsNewest(lower: CaseMap, rows: seq<Character>, lo: nat)
    requires lo <= |rows|
    ensures forall k :: lo <= k < |rows| && !HasLater(lower, rows, k) ==> rows[k] in KeptFrom(lower, rows, lo)
    decreases |rows| - lo
  {
    if lo < |rows| {
      KeptFromKeepsNewest(lower, rows, lo + 1);
      var tail := KeptFrom(lower, rows, lo + 1);
      var kept := KeptFrom(lower, rows, lo);
      assert kept == (if HasLater(lower, rows, lo) then [] else [rows[lo]]) + tail;
      forall k | lo <= k < |rows| && !HasLater(lower, rows, k) ensures rows[k] in kept {
        if k == lo {
          assert kept[0] == rows[lo];
        } else {
          assert rows[k] in tail;
        }
      }
    }
  }

  /** Deleting the duplicates bottom-up leaves the rows above the scan
      start untouched and keeps the newest row of each key below it. */
  lemma {:induction false} DeletingDuplicatesKeepsNewest(lower: CaseMap, rows: seq<Character>, lo: nat)
    requires lo <= |rows|
    ensures DeleteAll(rows, DuplicatesFrom(lower, rows, lo)) == rows[..lo] + KeptFrom(lower, rows, lo)
    decreases |rows| - lo
  {
    if lo == |rows| {
      assert rows[..lo] == rows;
    } else {
      DeletingDuplicatesKeepsNewest(lower, rows, lo + 1);
      var later := DuplicatesFrom(lower, rows, lo + 1);
      var ds := DuplicatesFrom(lower, rows, lo);
      var tail := KeptFrom(lower, rows, lo + 1);
      if HasLater(lower, rows, lo) {
        assert ds == later + [lo];
        DeleteOneMore(rows, later, lo, tail);
        assert KeptFrom(lower, rows, lo) == tail;
      } else {
        assert ds == later;
        PrefixStep(rows, lo, tail);
        assert KeptFrom(lower, rows, lo) == [rows[lo]] + tail;
      }
    }
  }

  /** One more row of a prefix, in front of a tail. */
  lemma PrefixStep<T>(s: seq<T>, lo: nat, tail: seq<T>)
    requires lo < |s|
    ensures s[..lo + 1] + tail == s[..lo] + [s[lo]] + tail
    ensures s[..lo + 1] + tail == s[..lo] + ([s[lo]] + tail)
  {
    assert s[..lo + 1] == s[..lo] + [s[lo]];
  }

  /** Deleting row `lo` after rows further down removes it from the
      sheet's untouched top part. */
  lemma DeleteOneMore<T>(rows: seq<T>, ds: seq<nat>, lo: nat, tail: seq<T>)
    requires InRange(|rows|, ds) && lo + |ds| < |rows|
    requires DeleteAll(rows, ds) == rows[..lo + 1] + tail
    ensures InRange(|rows|, ds + [lo])
    ensures DeleteAll(rows, ds + [lo]) == rows[..lo] + tail
  {
    DeleteAllSnoc(rows, ds, lo);
    PrefixStep(rows, lo, tail);
    RemoveAtJoin(rows[..lo], rows[lo], tail);
  }

  /** `cleanupDuplicateCharacters` leaves each key once, on its newest
      (bottom-most) row, in sheet order. */
  lemma CleanupKeepsNewest(lower: CaseMap, rows: seq<Character>)
    ensures DeleteAll(rows, DuplicatesFrom(lower, rows, 0)) == KeptFrom(lower, rows, 0)
    ensures forall i, j :: 0 <= i < j < |KeptFrom(lower, rows, 0)| ==>
      Key(lower, KeptFrom(lower, rows, 0)[i]) != Key(lower, KeptFrom(lower, rows, 0)[j])
    ensures KeySet(lower, KeptFrom(lower, rows, 0)) == KeysFrom(lower, rows, 0)
    ensures forall k :: 0 <= k < |rows| && !HasLater(lower, rows, k) ==> rows[k] in KeptFrom(lower, rows, 0)
  {
    DeletingDuplicatesKeepsNewest(lower, rows, 0);
    KeptFromHasEveryKey(lower, rows, 0);
    KeptFromKeysDistinct(lower, rows, 0);
    KeptFromKeepsNewest(lower, rows, 0);
  }

  // ------------------------------------------------------------ removal

  function NotOfUser(lower: CaseMap, name: string): Availability -> bool {
    (a: Availability) => !SameFolded(lower, a.discord, name)
  }

  function NoCharacterOf(lower: CaseMap, name: string): Character -> bool {
    (c: Character) => !SameFolded(lower, c.discord, name)
  }

  /** The bottom-most row of the character named `name`, or -1. */
  function LastCharacterNamed(lower: CaseMap, rows: seq<Character>, name: string): (k: int)
    ensures -1 <= k < |rows|
    ensures k >= 0 ==> SameFolded(lower, rows[k].character, name)
    ensures k >= 0 ==> forall j :: k < j < |rows| ==> !SameFolded(lower, rows[j].character, name)
    ensures k < 0 ==> forall j :: 0 <= j < |rows| ==> !SameFolded(lower, rows[j].character, name)
  {
    if rows == [] then -1
    else if SameFolded(lower, rows[|rows| - 1].character, name) then |rows| - 1
    else LastCharacterNamed(lower, rows[..|rows| - 1], name)
  }

  /** `removeCharacter`: the bottom-most row of that character is deleted;
      the placeholder name, or a name on no row, changes nothing. */
  function CharacterRemoved(lower: CaseMap, rows: seq<Character>, name: string): (r: seq<Character>)
    ensures name == CharacterPlaceholder ==> r == rows
    ensures |r| == |rows| - (if name != CharacterPlaceholder && LastCharacterNamed(lower, rows, name) >= 0 then 1 else 0)
    ensures multiset(r) <= multiset(rows)
    ensures name != CharacterPlaceholder ==> forall i :: 0 <= i < |r| && LastCharacterNamed(lower, rows, name) <= i ==> !SameFolded(lower, r[i].character, name)
    ensures LastCharacterNamed(lower, rows, name) < 0 ==> r == rows
    ensures name != CharacterPlaceholder && LastCharacterNamed(lower, rows, name) >= 0 ==>
      && (forall i :: 0 <= i < LastCharacterNamed(lower, rows, name) ==> r[i] == rows[i])
      && (forall i :: LastCharacterNamed(lower, rows, name) <= i < |r| ==> r[i] == rows[i + 1])
  {
    var k := LastCharacterNamed(lower, rows, name);
    if name == CharacterPlaceholder || k < 0 then rows
    else RemoveAt(rows, k)
  }

  // ----------------------------------------------------------- set as main

  /** A row `setCharacterAsMain(discord, character)` promotes. */
  predicate Target(lower: CaseMap, c: Character, discord: string, character: string) {
    SameFolded(lower, c.discord, discord) && SameFolded(lower, c.character, character)
  }

  /** `setCharacterAsMain`: the user's rows of that character become `Main`,
      the user's other mains become `Alt`, each stamped `now`. */
  function MainChosen(lower: CaseMap, rows: seq<Character>, discord: string, character: string, now: Time): (r: seq<Character>)
    ensures |r| == |rows|
    ensures forall i :: 0 <= i < |r| ==> SameCharacter(r[i], rows[i])
    ensures forall i :: 0 <= i < |r| && !SameFolded(lower, rows[i].discord, discord) ==> r[i] == rows[i]
    ensures forall i :: 0 <= i < |r| && SameFolded(lower, rows[i].discord, discord) ==>
      (MainOf(lower, discord, r[i]) <==> SameFolded(lower, rows[i].character, character))
    ensures forall i :: 0 <= i < |r| && !Target(lower, rows[i], discord, character) && !MainOf(lower, discord, rows[i]) ==>
      r[i] == rows[i]
    ensures forall i :: 0 <= i < |r| && Target(lower, rows[i], discord, character) ==>
      r[i].mainAlt == "Main" && r[i].updated == now
    ensures forall i :: 0 <= i < |r| && !Target(lower, rows[i], discord, character) && MainOf(lower, discord, rows[i]) ==>
      r[i].mainAlt == "Alt" && r[i].updated == now
  {
    seq(|rows|, i requires 0 <= i < |rows| =>
      if Target(lower, rows[i], discord, character) then rows[i].(mainAlt := "Main", updated := now)
      else if MainOf(lower, discord, rows[i]) then rows[i].(mainAlt := "Alt", updated := now)
      else rows[i])
  }

  /** When the character has one row for that user, the user ends with
      exactly one main, that row; with none, the user ends with no main. */
  lemma MainChosenIsOnlyMain(lower: CaseMap, rows: seq<Character>, discord: string, character: string, now: Time, k: nat)
    requires k < |rows| && Target(lower, rows[k], discord, character)
    requires forall i :: 0 <= i < |rows| && i != k ==> !Target(lower, rows[i], discord, character)
    ensures Count(MainChosen(lower, rows, discord, character, now), MainsOf(lower, discord)) == 1
    ensures MainOf(lower, discord, MainChosen(lower, rows, discord, character, now)[k])
  {
    var r := MainChosen(lower, rows, discord, character, now);
    forall i | 0 <= i < |r| && i != k ensures !MainsOf(lower, discord)(r[i]) {
      if SameFolded(lower, rows[i].discord, discord) {
        assert !SameFolded(lower, rows[i].character, character);
      } else {
        assert r[i] == rows[i];
      }
    }
    CountOne(r, k, MainsOf(lower, discord));
  }

  /** With no row of that character, every main of the user is demoted. */
  lemma MissingTargetDemotesAll(lower: CaseMap, rows: seq<Character>, discord: string, character: string, now: Time)
    requires forall i :: 0 <= i < |rows| ==> !Target(lower, rows[i], discord, character)
    ensures MainChosen(lower, rows, discord, character, now) == Demoted(lower, rows, discord, now)
  {
    var r := MainChosen(lower, rows, discord, character, now);
    var d := Demoted(lower, rows, discord, now);
    forall i | 0 <= i < |rows| ensures r[i] == d[i] {
      assert !Target(lower, rows[i], discord, character);
    }
  }

  // ----------------------------------------------------------------- summary

  /** What `getRosterSummary` reports (the percentages it logs are left
      out). */
  datatype Summary = Summary(
    totalPlayers: nat, totalCharacters: nat, mains: nat, alts: int,
    tanks: nat, healers: nat, dps: nat, byDay: seq<nat>)

  function IsMain(c: Character): bool { c.mainAlt == "Main" }

  function HasRole(role: string): Character -> bool {
    (c: Character) => c.role == role
  }

  /** The flag of day `d`, Monday first. */
  function Day(w: Week, d: nat): bool
    requires d < 7
  {
    match d
    case 0 => w.monday
    case 1 => w.tuesday
    case 2 => w.wednesday
    case 3 => w.thursday
    case 4 => w.friday
    case 5 => w.saturday
    case _ => w.sunday
  }

  /** A main of the given role: what the role tallies count. */
  function MainWithRole(role: string): Character -> bool {
    (c: Character) => IsMain(c) && c.role == role
  }

  function AvailableOn(d: nat): Availability -> bool
    requires d < 7
  {
    (a: Availability) => Day(a.week, d)
  }

  function RosterSummary(availability: seq<Availability>, characters: seq<Character>): (s: Summary)
    ensures s.totalPlayers == |availability| && s.totalCharacters == |characters|
    ensures s.mains + s.alts == s.totalCharacters
    ensures s.alts == Count(characters, c => !IsMain(c))
    ensures s.tanks + s.healers + s.dps <= s.mains
    ensures |s.byDay| == 7
    ensures forall d :: 0 <= d < 7 ==> s.byDay[d] <= s.totalPlayers
    ensures s.mains == Count(characters, IsMain)
    ensures s.tanks == Count(characters, MainWithRole("Tank"))
    ensures s.healers == Count(characters, MainWithRole("Healer"))
    ensures s.dps == Count(characters, MainWithRole("DPS"))
    ensures forall d :: 0 <= d < 7 ==> s.byDay[d] == Count(availability, AvailableOn(d))
  {
    var mains := Filter(characters, IsMain);
    CountSplit(characters, IsMain, c => !IsMain(c));
    CountDisjoint(mains, HasRole("Tank"), HasRole("Healer"), HasRole("DPS"));
    CountFiltered(characters, IsMain, HasRole("Tank"), MainWithRole("Tank"));
    CountFiltered(characters, IsMain, HasRole("Healer"), MainWithRole("Healer"));
    CountFiltered(characters, IsMain, HasRole("DPS"), MainWithRole("DPS"));
    Summary(|availability|, |characters|, |mains|, |characters| - |mains|,
      Count(mains, HasRole("Tank")), Count(mains, HasRole("Healer")), Count(mains, HasRole("DPS")),
      seq(7, d requires 0 <= d < 7 => Count(availability, AvailableOn(d))))
  }

  // ------------------------------------------------------------ the sheets

  class Spreadsheet {
    var availability: seq<Availability>
    var characters: seq<Character>
    /** The script's `toLowerCase()`, applied to both sides of every name
        comparison and to the duplicate key. */
    const lower: CaseMap

    /** Both sheets as `getOrCreate…Sheet` first creates them: a header
        and no rows. */
    constructor (lower: CaseMap)
      ensures availability == [] && characters == []
      ensures this.lower == lower
    {
      this.lower := lower;
      availability := [];
      characters := [];
    }

    /** `updateAvailability`: scan for the user's first row, then
        overwrite it or append a new one. */
    method UpdateAvailability(post: Post, now: Time)
      modifies this
      ensures availability == Upserted(lower, old(availability), AvailabilityOf(post, now))
      ensures characters == old(characters)
    {
      var data := availability;
      var row := AvailabilityOf(post, now);
      var existing := -1;
      var i := 0;
      while i < |data|
        invariant 0 <= i <= |data|
        invariant forall j :: 0 <= j < i ==> !SameFolded(lower, data[j].discord, post.discordName)
      {
        if SameFolded(lower, data[i].discord, post.discordName) {
          existing := i;
          break;
        }
        i := i + 1;
      }
      assert existing == FirstNamed(lower, data, row.discord);
      if existing >= 0 {
        availability := availability[existing := row];
      } else {
        availability := availability + [row];
      }
    }

    /** `demoteExistingMain`: every `Main` row of the user becomes `Alt`. */
    method DemoteExistingMain(name: string, now: Time)
      modifies this
      ensures characters == Demoted(lower, old(characters), name, now)
      ensures availability == old(availability)
    {
      var data := characters;
      var i := 0;
      while i < |data|
        invariant 0 <= i <= |data|
        invariant |characters| == |data|
        invariant forall j :: 0 <= j < i ==> characters[j] == Demoted(lower, data, name, now)[j]
        invariant forall j :: i <= j < |data| ==> characters[j] == data[j]
        invariant availability == old(availability)
      {
        if MainOf(lower, name, data[i]) {
          characters := characters[i := characters[i].(mainAlt := "Alt", updated := now)];
        }
        i := i + 1;
      }
    }

    /** `addCharacter`: one new row at the bottom. */
    method AddCharacter(post: Post, now: Time)
      modifies this
      ensures characters == old(characters) + [CharacterOf(post, now)]
      ensures availability == old(availability)
    {
      characters := characters + [CharacterOf(post, now)];
    }

    /** `doPost`: availability first, then the demotion of older mains
        when the new character is a `Main`, then the character. */
    method DoPost(post: Post, now: Time)
      modifies this
      ensures availability == Upserted(lower, old(availability), AvailabilityOf(post, now))
      ensures characters == Posted(lower, old(characters), post, now)
    {
      UpdateAvailability(post, now);
      if post.mainAlt == "Main" {
        DemoteExistingMain(post.discordName, now);
      }
      AddCharacter(post, now);
    }

    /** `cleanupDuplicateCharacters`: scan bottom-up remembering keys seen,
        collect the rows whose key was already seen, then delete them in
        that order. */
    method CleanupDuplicateCharacters() returns (removed: nat)
      modifies this
      ensures characters == KeptFrom(lower, old(characters), 0)
      ensures removed == |old(characters)| - |characters|
      ensures availability == old(availability)
    {
      var data := characters;
      var seen: set<string> := {};
      var rowsToDelete: seq<nat> := [];
      var k := |data|;
      while k > 0
        invariant 0 <= k <= |data|
        invariant seen == KeysFrom(lower, data, k)
        invariant rowsToDelete == DuplicatesFrom(lower, data, k)
      {
        k := k - 1;
        assert KeysFrom(lower, data, k) == {Key(lower, data[k])} + KeysFrom(lower, data, k + 1);
        if Key(lower, data[k]) in seen {
          rowsToDelete := rowsToDelete + [k];
        } else {
          seen := seen + {Key(lower, data[k])};
        }
      }
      DeleteRows(rowsToDelete);
      CleanupKeepsNewest(lower, data);
      removed := |rowsToDelete|;
    }

    /** `rowsToDelete.forEach(deleteRow)`. */
    method DeleteRows(ds: seq<nat>)
      requires InRange(|characters|, ds)
      modifies this
      ensures characters == DeleteAll(old(characters), ds)
      ensures availability == old(availability)
    {
      var rows := characters;
      var t := 0;
      while t < |ds|
        invariant 0 <= t <= |ds|
        invariant InRange(|rows|, ds[..t])
        invariant characters == DeleteAll(rows, ds[..t])
        invariant availability == old(availability)
      {
        DeleteNext(rows, ds, t);
        characters := RemoveAt(characters, ds[t]);
        t := t + 1;
      }
      assert ds[..t] == ds;
    }

    /** `removePlayer`: delete every row of the user from both sheets;
        the placeholder name changes nothing. */
    method RemovePlayer(name: string) returns (removedCharacters: nat)
      modifies this
      ensures name == DiscordPlaceholder ==>
        availability == old(availability) && characters == old(characters) && removedCharacters == 0
      ensures name != DiscordPlaceholder ==>
        availability == Filter(old(availability), NotOfUser(lower, name)) &&
        characters == Filter(old(characters), NoCharacterOf(lower, name)) &&
        removedCharacters == |old(characters)| - |characters|
    {
      removedCharacters := 0;
      if name == DiscordPlaceholder {
        return;
      }
      RemoveAvailabilityOf(name);
      removedCharacters := RemoveCharactersOf(name);
    }

    /** The first loop of `removePlayer`: bottom-up over the availability
        rows, deleting the user's. */
    method RemoveAvailabilityOf(name: string)
      modifies this
      ensures availability == Filter(old(availability), NotOfUser(lower, name))
      ensures characters == old(characters)
    {
      KeepAvailability(NotOfUser(lower, name));
    }

    /** The second loop of `removePlayer`: bottom-up over the character
        rows, deleting and counting the user's. */
    method RemoveCharactersOf(name: string) returns (removed: nat)
      modifies this
      ensures characters == Filter(old(characters), NoCharacterOf(lower, name))
      ensures removed == |old(characters)| - |characters|
      ensures availability == old(availability)
    {
      removed := KeepCharacters(NoCharacterOf(lower, name));
    }

    /** Bottom-up over the availability rows, deleting each row that
        `keep` rejects. */
    method KeepAvailability(keep: Availability -> bool)
      modifies this
      ensures availability == Filter(old(availability), keep)
      ensures characters == old(characters)
    {
      var data := availability;
      var i := |data|;
      while i > 0
        invariant 0 <= i <= |data|
        invariant availability == data[..i] + Filter(data[i..], keep)
        invariant characters == old(characters)
      {
        i := i - 1;
        if !keep(data[i]) {
          BottomUpDrop(data, i, keep);
          availability := RemoveAt(availability, i);
        } else {
          BottomUpKeep(data, i, keep);
        }
      }
      assert data[0..] == data;
    }

    /** Bottom-up over the character rows, deleting and counting each row
        that `keep` rejects. */
    method KeepCharacters(keep: Character -> bool) returns (removed: nat)
      modifies this
      ensures characters == Filter(old(characters), keep)
      ensures removed == |old(characters)| - |characters|
      ensures availability == old(availability)
    {
      removed := 0;
      var data := characters;
      var j := |data|;
      while j > 0
        invariant 0 <= j <= |data|
        invariant characters == data[..j] + Filter(data[j..], keep)
        invariant removed + |characters| == |data|
        invariant availability == old(availability)
      {
        j := j - 1;
        if !keep(data[j]) {
          BottomUpDrop(data, j, keep);
          characters := RemoveAt(characters, j);
          removed := removed + 1;
        } else {
          BottomUpKeep(data, j, keep);
        }
      }
      assert data[0..] == data;
    }

    /** `removeCharacter`: bottom-up, delete the first row of that
        character met and stop. */
    method RemoveCharacter(name: string) returns (found: bool)
      modifies this
      ensures characters == CharacterRemoved(lower, old(characters), name)
      ensures found <==> name != CharacterPlaceholder && LastCharacterNamed(lower, old(characters), name) >= 0
      ensures availability == old(availability)
    {
      found := false;
      if name == CharacterPlaceholder {
        return;
      }
      var data := characters;
      var i := |data|;
      while i > 0
        invariant 0 <= i <= |data|
        invariant forall j :: i <= j < |data| ==> !SameFolded(lower, data[j].character, name)
      {
        i := i - 1;
        if SameFolded(lower, data[i].character, name) {
          assert LastCharacterNamed(lower, data, name) == i;
          characters := RemoveAt(characters, i);
          found := true;
          return;
        }
      }
    }

    /** `setCharacterAsMain`: one pass over the sheet promoting the
        character's rows and demoting the user's other mains; both
        placeholders must have been edited. */
    method SetCharacterAsMain(discord: string, character: string, now: Time) returns (foundTarget: bool)
      modifies this
      ensures discord == DiscordPlaceholder || character == CharacterPlaceholder ==>
        characters == old(characters) && !foundTarget
      ensures discord != DiscordPlaceholder && character != CharacterPlaceholder ==>
        characters == MainChosen(lower, old(characters), discord, character, now) &&
        (foundTarget <==> exists i :: 0 <= i < |old(characters)| && Target(lower, old(characters)[i], discord, character))
      ensures availability == old(availability)
    {
      foundTarget := false;
      if discord == DiscordPlaceholder || character == CharacterPlaceholder {
        return;
      }
      var data := characters;
      var i := 0;
      while i < |data|
        invariant 0 <= i <= |data|
        invariant |characters| == |data|
        invariant forall j :: 0 <= j < i ==> characters[j] == MainChosen(lower, data, discord, character, now)[j]
        invariant forall j :: i <= j < |data| ==> characters[j] == data[j]
        invariant foundTarget <==> exists j :: 0 <= j < i && Target(lower, data[j], discord, character)
        invariant availability == old(availability)
      {
        if SameFolded(lower, data[i].discord, discord) {
          if SameFolded(lower, data[i].character, character) {
            characters := characters[i := characters[i].(mainAlt := "Main", updated := now)];
            foundTarget := true;
          } else if data[i].mainAlt == "Main" {
            characters := characters[i := characters[i].(mainAlt := "Alt", updated := now)];
          }
        }
        i := i + 1;
      }
    }
  }
}
