/** The author line and badges of a feed card (components/MemeCard.tsx):
    who is shown as the author, the avatar letter, and the "new" badge. The
    author is the meme's `createdBy` string, "" when absent. */
module MemeCard {
  import opened Wrappers
  import opened JsString
  import opened Types
  import RelativeTime

  /** The signed-in user made this meme: the author is set and equals the
      user's id or e-mail. */
  function IsOwner(createdBy: string, user: User): (r: bool)
    ensures r ==> createdBy != ""
    ensures r <==> createdBy != "" && (createdBy == user.id || createdBy == user.email)
    ensures user == SignedOut ==> !r
  {
    createdBy != "" && (createdBy == user.id || createdBy == user.email)
  }

  /** `[0-9a-f]` under the case-insensitive flag. */
  predicate IsHexDigit(c: char) {
    '0' <= c <= '9' || 'a' <= c <= 'f' || 'A' <= c <= 'F'
  }

  predicate AllHex(s: string) {
    forall i :: 0 <= i < |s| ==> IsHexDigit(s[i])
  }

  /** The group lengths of the UUID pattern, joined by hyphens. */
  const UuidGroups: seq<nat> := [8, 4, 4, 4, 12]

  /** The anchored pattern `g0-g1-...-gn` in which group `k` is exactly
      `groups[k]` hex digits. */
  predicate MatchesGroups(s: string, groups: seq<nat>)
    decreases |groups|
  {
    if |groups| == 0 then s == []
    else if |groups| == 1 then |s| == groups[0] && AllHex(s)
    else
      && |s| > groups[0] && AllHex(s[..groups[0]]) && s[groups[0]] == '-'
      && MatchesGroups(s[groups[0] + 1..], groups[1..])
  }

  /** The positions of the four hyphens in a UUID. */
  predicate IsDashPosition(i: int) {
    i == 8 || i == 13 || i == 18 || i == 23
  }

  /** The author looks like a UUID, the form an id takes. */
  predicate IsUuid(createdBy: string) {
    createdBy != "" && MatchesGroups(createdBy, UuidGroups)
  }

  /** A slice is all hex exactly when each of its characters is. */
  lemma HexSlice(s: string, a: nat, b: nat)
    requires a <= b <= |s|
    ensures AllHex(s[a..b]) <==> forall i :: a <= i < b ==> IsHexDigit(s[i])
  {
    assert forall k :: 0 <= k < b - a ==> s[a..b][k] == s[a + k];
    if forall i :: a <= i < b ==> IsHexDigit(s[i]) {
      forall k | 0 <= k < b - a ensures IsHexDigit(s[a..b][k]) {
        assert IsHexDigit(s[a + k]);
      }
    }
  }

  /** The five groups of the pattern laid out on a 36-character string. */
  predicate UuidShape(s: string) {
    && |s| == 36
    && AllHex(s[0..8]) && s[8] == '-' && AllHex(s[9..13]) && s[13] == '-'
    && AllHex(s[14..18]) && s[18] == '-' && AllHex(s[19..23]) && s[23] == '-'
    && AllHex(s[24..36])
  }

  /** Reading the pattern group by group lays the groups out at fixed
      places. */
  lemma UuidShapeMatches(s: string)
    ensures MatchesGroups(s, UuidGroups) <==> UuidShape(s)
  {
    var g := UuidGroups;
    assert g[1..] == [4, 4, 4, 12] && g[2..] == [4, 4, 12] && g[3..] == [4, 12] && g[4..] == [12];
    if |s| > 23 {
      assert s[..8] == s[0..8];
      assert s[9..][..4] == s[9..13] && s[9..][4] == s[13] && s[9..][5..] == s[14..];
      assert s[14..][..4] == s[14..18] && s[14..][4] == s[18] && s[14..][5..] == s[19..];
      assert s[19..][..4] == s[19..23] && s[19..][4] == s[23] && s[19..][5..] == s[24..];
      if |s| == 36 { assert s[24..] == s[24..36]; }
    }
  }

  /** The pattern, read group by group, is the same as checking every
      character against its place: 36 characters, hyphens at 8, 13, 18 and
      23, hex digits elsewhere. */
  lemma {:induction false} UuidByPosition(s: string)
    ensures IsUuid(s) <==>
      |s| == 36 && forall i :: 0 <= i < 36 ==> if IsDashPosition(i) then s[i] == '-' else IsHexDigit(s[i])
  {
    UuidShapeMatches(s);
    if |s| == 36 {
      HexSlice(s, 0, 8); HexSlice(s, 9, 13); HexSlice(s, 14, 18); HexSlice(s, 19, 23); HexSlice(s, 24, 36);
    }
  }

  /** The part before the first "@", when the author contains one. */
  function Handle(createdBy: string): (r: Option<string>)
    ensures r.Some? <==> '@' in createdBy
    ensures r.Some? ==> r.value <= createdBy && '@' !in r.value && createdBy[|r.value|] == '@'
  {
    if '@' in createdBy then Some(BeforeFirst(createdBy, '@')) else None
  }

  /** The author label before shortening, by the first rule that applies:
      the user's own meme reads "You", with the handle when it is non-empty;
      an e-mail author reads "@" and its local part; a UUID reads "Member";
      any other author is shown as is; no author reads "Anonymous". */
  function RawName(createdBy: string, user: User): (r: string)
    ensures r != ""
    ensures IsOwner(createdBy, user) ==> "You" <= r
    ensures IsOwner(createdBy, user) && Handle(createdBy).Some? && Handle(createdBy).value != "" ==>
      r == "You (@" + Handle(createdBy).value + ")"
    ensures IsOwner(createdBy, user) && (Handle(createdBy).None? || Handle(createdBy).value == "") ==>
      r == "You"
    ensures !IsOwner(createdBy, user) && '@' in createdBy ==>
      r == "@" + Handle(createdBy).value && '@' !in r[1..]
    ensures !IsOwner(createdBy, user) && '@' !in createdBy && createdBy != "" ==>
      r == (if IsUuid(createdBy) then "Member" else createdBy)
    ensures createdBy == "" ==> r == "Anonymous"
  {
    var handle := Handle(createdBy);
    if IsOwner(createdBy, user) then
      if handle.Some? && handle.value != "" then "You (@" + handle.value + ")" else "You"
    else if createdBy != "" then
      if '@' in createdBy then "@" + BeforeFirst(createdBy, '@')
      else if IsUuid(createdBy) then "Member"
      else createdBy
    else "Anonymous"
  }

  const MaxNameLength: nat := 18
  const Ellipsis: string := "..."

  /** The label as shown: at most 18 characters, or the first 18 followed by
      an ellipsis. */
  function DisplayName(raw: string): (r: string)
    ensures |r| <= MaxNameLength + |Ellipsis|
    ensures |raw| <= MaxNameLength ==> r == raw
    ensures |raw| > MaxNameLength ==> r == raw[..MaxNameLength] + Ellipsis
  {
    if |raw| > MaxNameLength then raw[..MaxNameLength] + Ellipsis else raw
  }

  /** `s.charAt(0)`: the first character, or "" for the empty string. */
  function CharAt0(s: string): (r: string)
    ensures |r| <= 1 && r <= s
    ensures s != "" ==> |r| == 1
  {
    if s == "" then "" else s[..1]
  }

  /** The avatar letter, `(h || c || "A").toUpperCase()` with `h` the
      handle's first character and `c` the first non-blank character of the
      shown name. */
  function AvatarInitial(handle: Option<string>, displayName: string): (r: string)
    ensures |r| == 1
    ensures handle.Some? && handle.value != "" ==> r == [UpperChar(handle.value[0])]
    ensures (handle.None? || handle.value == "") && Trim(displayName) != "" ==>
      r == [UpperChar(Trim(displayName)[0])] && !IsWhitespace(Trim(displayName)[0])
    ensures (handle.None? || handle.value == "") && Trim(displayName) == "" ==> r == "A"
  {
    var h := if handle.Some? then CharAt0(handle.value) else "";
    if h != "" then ToUpper(h)
    else
      var c := CharAt0(Trim(displayName));
      if c != "" then ToUpper(c) else ToUpper("A")
  }

  const NewWindowMs: int := 1000 * 60 * 15

  /** The "new" badge: the meme is at most 15 minutes old and not from the
      future. */
  function IsNew(createdAt: int, now: int): (r: bool)
    ensures r <==> createdAt <= now < createdAt + 900000
  {
    var ageMs := now - createdAt;
    ageMs >= 0 && ageMs < NewWindowMs
  }

  /** A card that carries the "new" badge is labelled "Just now" or a whole
      number of minutes ago between 1 and 15. */
  lemma NewMemeLabel(createdAt: int, now: int)
    requires createdAt != 0 && IsNew(createdAt, now)
    ensures var r := RelativeTime.FormatRelativeTime(createdAt, now);
      r == RelativeTime.JustNow
      || (r.Relative? && r.unit == RelativeTime.Minute && -15 <= r.value <= -1)
  {
    var s := RelativeTime.Seconds(createdAt, now);
    assert -900 <= s <= 0;
    RelativeTime.MinuteRange(s);
  }

  /** An author given as an e-mail address is shown by its local part: to the
      user who made the meme as "You (@local)", to everyone else as
      "@local"; the avatar letter is the local part's first letter. */
  lemma EmailAuthor(local: string, domain: string, user: User)
    requires local != "" && '@' !in local
    ensures var createdBy := local + "@" + domain;
      && Handle(createdBy) == Some(local)
      && RawName(createdBy, user) == (if IsOwner(createdBy, user) then "You (@" + local + ")" else "@" + local)
      && AvatarInitial(Handle(createdBy), DisplayName(RawName(createdBy, user))) == [UpperChar(local[0])]
  {
    var s := local + "@" + domain;
    var h := BeforeFirst(s, '@');
    assert s[|local|] == '@';
    assert forall i :: 0 <= i < |local| ==> s[i] == local[i];
    assert h == local;
  }

  /** The user's own meme, recorded under the user's id (which holds no
      "@"), reads exactly "You" with the letter "Y". */
  lemma OwnerById(user: User)
    requires user.id != "" && '@' !in user.id
    ensures IsOwner(user.id, user) && Handle(user.id).None?
    ensures DisplayName(RawName(user.id, user)) == "You"
    ensures AvatarInitial(Handle(user.id), DisplayName(RawName(user.id, user))) == "Y"
  {
    var name := RawName(user.id, user);
    assert name == "You";
    assert DisplayName(name) == name;
    TrimTrimmed(name);
    assert Trim(name)[0] == 'Y';
  }

  /** A meme without an author reads "Anonymous" with the letter "A". */
  lemma AnonymousAuthor(user: User)
    ensures !IsOwner("", user) && !IsUuid("") && Handle("").None?
    ensures DisplayName(RawName("", user)) == "Anonymous"
    ensures AvatarInitial(Handle(""), DisplayName(RawName("", user))) == "A"
  {
    var name := RawName("", user);
    assert name == "Anonymous";
    assert DisplayName(name) == name;
    TrimTrimmed(name);
    assert Trim(name)[0] == 'A';
  }
}
