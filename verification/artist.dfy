/** The Artist aggregate of the artists service: an owner's artist with a
    non-empty set of nicknames, one of which is preferred. The repository
    query the aggregate consults is passed in as a predicate. */
module Artists {
  import opened Wrappers

  /** Value object wrapping one nickname string. */
  datatype ArtistNickname = ArtistNickname(nickname: string)

  /** The flattened form the aggregate is stored as. */
  datatype ArtistSnapshot = ArtistSnapshot(
    id: Option<int>,
    artistId: Uuid,
    ownerId: Uuid,
    nicknames: set<string>,
    preferredNickname: string,
    createDate: Option<Timestamp>)

  /** The aggregate. `id` is the storage row identity and may be absent for
      an artist not yet persisted; `createDate` is nullable as well. */
  datatype Artist = Artist(
    id: Option<int>,
    artistId: Uuid,
    ownerId: Uuid,
    nicknames: set<ArtistNickname>,
    preferredNickname: ArtistNickname,
    createDate: Option<Timestamp>)

  /** The local invariant every successful update establishes. */
  predicate NicknamesValid(a: Artist) {
    a.nicknames != {} && a.preferredNickname in a.nicknames
  }

  /** `existsByOwnerIdAndPreferredNickname(ownerId, nickname)`: does some
      artist of this owner already have this nickname as preferred? */
  type PreferredNicknameLookup = (Uuid, string) -> bool

  /** The exceptions `updateNicknames` throws. */
  datatype ArtistError =
    | BothParametersNull                        // NullPointerException
    | NicknamesCannotBeEmpty                    // InvalidDataGivenException
    | PreferredNicknameIsNotValid(nick: string) // InvalidDataGivenException
    | PreferredNicknameIsTaken(nick: string)    // RecordAlreadyExistsException
  {
    /** Errors reported as invalid data (as opposed to a conflict). */
    predicate IsInvalidData() {
      NicknamesCannotBeEmpty? || PreferredNicknameIsNotValid?
    }
  }

  /** The aggregate after a call to a mutator, and the exception the call
      threw, if any. */
  datatype Mutation = Mutation(artist: Artist, thrown: Option<ArtistError>)

  function WrapNicknames(names: set<string>): (r: set<ArtistNickname>)
    ensures forall n :: ArtistNickname(n) in r <==> n in names
    ensures forall v :: v in r ==> v.nickname in names
  {
    set n | n in names :: ArtistNickname(n)
  }

  function UnwrapNicknames(nicks: set<ArtistNickname>): (r: set<string>)
    ensures forall n :: n in r <==> ArtistNickname(n) in nicks
  {
    set v | v in nicks :: v.nickname
  }

  /** Rebuilds an aggregate from its snapshot. Nothing is validated: the
      aggregate satisfies the nickname invariant exactly when the snapshot
      did. */
  function Restore(s: ArtistSnapshot): (a: Artist)
    ensures a.id == s.id && a.artistId == s.artistId && a.ownerId == s.ownerId && a.createDate == s.createDate
    ensures forall n :: ArtistNickname(n) in a.nicknames <==> n in s.nicknames
    ensures a.preferredNickname.nickname == s.preferredNickname
    ensures NicknamesValid(a) <==> s.nicknames != {} && s.preferredNickname in s.nicknames
  {
    var a := Artist(s.id, s.artistId, s.ownerId, WrapNicknames(s.nicknames),
                    ArtistNickname(s.preferredNickname), s.createDate);
    assert s.nicknames != {} ==> a.nicknames != {} by {
      if s.nicknames != {} {
        var n :| n in s.nicknames;
        assert ArtistNickname(n) in a.nicknames;
      }
    }
    a
  }

  /** Flattens the aggregate, unwrapping the nickname value objects. */
  function GetSnapshot(a: Artist): (s: ArtistSnapshot)
    ensures s.id == a.id && s.artistId == a.artistId && s.ownerId == a.ownerId && s.createDate == a.createDate
    ensures forall n :: n in s.nicknames <==> ArtistNickname(n) in a.nicknames
    ensures s.preferredNickname == a.preferredNickname.nickname
  {
    ArtistSnapshot(a.id, a.artistId, a.ownerId, UnwrapNicknames(a.nicknames),
                   a.preferredNickname.nickname, a.createDate)
  }

  /** Restoring and taking the snapshot again gives back the snapshot. */
  lemma SnapshotRoundTrip(s: ArtistSnapshot)
    ensures GetSnapshot(Restore(s)) == s
  {
    var t := GetSnapshot(Restore(s));
    assert t.nicknames == s.nicknames;
  }

  /** Taking a snapshot and restoring it gives back the aggregate. */
  lemma RestoreRoundTrip(a: Artist)
    ensures Restore(GetSnapshot(a)) == a
  {
    var b := Restore(GetSnapshot(a));
    assert forall v :: v in b.nicknames <==> v in a.nicknames by {
      forall v
        ensures v in b.nicknames <==> v in a.nicknames
      {
        assert v == ArtistNickname(v.nickname);
      }
    }
    assert b.nicknames == a.nicknames;
  }

  /** Replaces the nicknames and/or the preferred nickname. A null argument
      keeps the current value, but not both may be null. The result must be
      a non-empty set containing the preferred nickname, and a new preferred
      nickname must not already be preferred by another artist of the same
      owner. Fields are written only once every check passed. */
  function UpdateNicknames(a: Artist, newNicknames: Option<set<ArtistNickname>>,
                           newPreferredNickname: Option<ArtistNickname>,
                           existsByOwnerIdAndPreferredNickname: PreferredNicknameLookup): (r: Mutation)
    // identity and creation date never change; a failure changes nothing
    ensures r.artist.id == a.id && r.artist.artistId == a.artistId
    ensures r.artist.ownerId == a.ownerId && r.artist.createDate == a.createDate
    ensures r.thrown.Some? ==> r.artist == a
    // both arguments null
    ensures newNicknames.None? && newPreferredNickname.None? ==> r.thrown == Some(BothParametersNull)
    // the outcome in terms of the defaulted arguments
    ensures newNicknames.Some? || newPreferredNickname.Some? ==>
              var nicks := newNicknames.GetOr(a.nicknames);
              var pref := newPreferredNickname.GetOr(a.preferredNickname);
              && (r.thrown == Some(NicknamesCannotBeEmpty) <==> nicks == {})
              && (r.thrown == Some(PreferredNicknameIsNotValid(pref.nickname)) <==> nicks != {} && pref !in nicks)
              && (r.thrown == Some(PreferredNicknameIsTaken(pref.nickname)) <==>
                    nicks != {} && pref in nicks && pref != a.preferredNickname
                    && existsByOwnerIdAndPreferredNickname(a.ownerId, pref.nickname))
              && (r.thrown.None? <==>
                    nicks != {} && pref in nicks
                    && (pref == a.preferredNickname || !existsByOwnerIdAndPreferredNickname(a.ownerId, pref.nickname)))
              && (r.thrown.None? ==> r.artist.nicknames == nicks && r.artist.preferredNickname == pref)
    // success establishes the invariant
    ensures r.thrown.None? ==> NicknamesValid(r.artist)
  {
    if newPreferredNickname.None? && newNicknames.None? then
      Mutation(a, Some(BothParametersNull))
    else
      var nicknames := if newNicknames.None? then a.nicknames else newNicknames.value;
      var preferredNickname := if newNicknames.None? then newPreferredNickname.value
                               else if newPreferredNickname.None? then a.preferredNickname
                               else newPreferredNickname.value;
      if |nicknames| == 0 then
        Mutation(a, Some(NicknamesCannotBeEmpty))
      else if preferredNickname !in nicknames then
        Mutation(a, Some(PreferredNicknameIsNotValid(preferredNickname.nickname)))
      else if a.preferredNickname != preferredNickname
              && existsByOwnerIdAndPreferredNickname(a.ownerId, preferredNickname.nickname) then
        Mutation(a, Some(PreferredNicknameIsTaken(preferredNickname.nickname)))
      else
        Mutation(a.(nicknames := nicknames, preferredNickname := preferredNickname), None)
  }

  /** Keeping the current preferred nickname never consults the repository,
      so it can never fail as already taken. */
  lemma UnchangedPreferredIgnoresLookup(a: Artist, newNicknames: Option<set<ArtistNickname>>,
                                        newPreferredNickname: Option<ArtistNickname>,
                                        lookup1: PreferredNicknameLookup, lookup2: PreferredNicknameLookup)
    requires newPreferredNickname.GetOr(a.preferredNickname) == a.preferredNickname
    ensures UpdateNicknames(a, newNicknames, newPreferredNickname, lookup1)
         == UpdateNicknames(a, newNicknames, newPreferredNickname, lookup2)
    ensures !UpdateNicknames(a, newNicknames, newPreferredNickname, lookup1).thrown.Some?
         || !UpdateNicknames(a, newNicknames, newPreferredNickname, lookup1).thrown.value.PreferredNicknameIsTaken?
  {
  }

  /** Repeating a successful update succeeds and changes nothing further,
      whatever the repository now answers. */
  lemma UpdateIdempotent(a: Artist, newNicknames: Option<set<ArtistNickname>>,
                         newPreferredNickname: Option<ArtistNickname>,
                         lookup1: PreferredNicknameLookup, lookup2: PreferredNicknameLookup)
    requires UpdateNicknames(a, newNicknames, newPreferredNickname, lookup1).thrown.None?
    ensures var b := UpdateNicknames(a, newNicknames, newPreferredNickname, lookup1).artist;
            UpdateNicknames(b, newNicknames, newPreferredNickname, lookup2) == Mutation(b, None)
  {
    var b := UpdateNicknames(a, newNicknames, newPreferredNickname, lookup1).artist;
    assert newPreferredNickname.GetOr(b.preferredNickname) == b.preferredNickname;
  }

  /** Re-submitting the aggregate's own valid state succeeds unchanged. */
  lemma ResubmitCurrentState(a: Artist, lookup: PreferredNicknameLookup)
    requires NicknamesValid(a)
    ensures UpdateNicknames(a, Some(a.nicknames), Some(a.preferredNickname), lookup) == Mutation(a, None)
  {
  }

  /** Two artists of one owner: when the owner already prefers "fox"
      elsewhere, switching this artist's preferred nickname to "fox" is a
      conflict and leaves it as it was. */
  lemma PreferredNicknameConflictAcrossArtists(b: Artist, lookup: PreferredNicknameLookup)
    requires lookup(b.ownerId, "fox")
    requires b.preferredNickname != ArtistNickname("fox")
    requires ArtistNickname("fox") in b.nicknames
    ensures UpdateNicknames(b, None, Some(ArtistNickname("fox")), lookup)
         == Mutation(b, Some(PreferredNicknameIsTaken("fox")))
  {
  }

  /** Nicknames {"fox", "vix"} preferring "fox": switching to "vix" succeeds
      when no other artist of the owner prefers it, and then clearing the
      nicknames fails as invalid data, keeping "vix". */
  lemma FoxVixScenario(id: Uuid, owner: Uuid, lookup: PreferredNicknameLookup)
    requires !lookup(owner, "vix")
    ensures var fox := ArtistNickname("fox");
            var vix := ArtistNickname("vix");
            var a := Artist(None, id, owner, {fox, vix}, fox, None);
            var m1 := UpdateNicknames(a, None, Some(vix), lookup);
            var m2 := UpdateNicknames(m1.artist, Some({}), None, lookup);
            && m1 == Mutation(a.(preferredNickname := vix), None)
            && m2.thrown == Some(NicknamesCannotBeEmpty) && m2.thrown.value.IsInvalidData()
            && m2.artist.preferredNickname == vix && m2.artist.nicknames == {fox, vix}
  {
  }
}
