/** The profile service: a user's public profile as seen by a viewer, and
    the follow toggle, which inserts or deletes the single edge
    `(current user, target)`. */
module Profiles {
  import opened Common
  import opened Store

  datatype Profile = Profile(username: string, bio: Option<string>, image: Option<string>, following: bool)

  function ProfileOf(u: User, following: bool): Profile {
    Profile(u.username, u.bio, u.image, following)
  }

  class ProfileService {
    const db: Database

    constructor (db: Database)
      ensures this.db == db
    {
      this.db := db;
    }

    /** The profile of `username`; `following` holds exactly when a viewer
        (a non-zero id) is given and follows that user. */
    function GetProfile(username: string, currentUserId: Option<int>): (r: Result<Profile>)
      reads db
      requires db.Valid()
      ensures r.Err? <==> forall id :: id in db.users ==> db.users[id].username != username
      ensures r.Err? ==> r.failure == Http(NotFound)
      ensures r.Ok? ==>
                exists id :: id in db.users && db.users[id].username == username
                  && r.value.username == username
                  && r.value.bio == db.users[id].bio && r.value.image == db.users[id].image
                  && (r.value.following <==> PresentId(currentUserId) && (currentUserId.value, id) in db.follows)
    {
      var user := db.UserByUsername(username);
      if user.None? then Err(Http(NotFound))
      else
        var following := PresentId(currentUserId) && (currentUserId.value, user.value.id) in db.follows;
        Ok(ProfileOf(user.value, following))
    }

    method FollowUser(username: string, currentUserId: int) returns (r: Result<Profile>)
      requires db.Valid()
      modifies db`follows
      ensures db.Valid()
      ensures old(db.UserByUsername(username)).None? ==> r == Err(Http(NotFound)) && unchanged(db)
      ensures old(db.UserByUsername(username)).Some? ==>
                var target := old(db.UserByUsername(username)).value;
                if target.id == currentUserId
                then r == Err(Http(BadRequest)) && unchanged(db)
                else if currentUserId !in db.users
                then r == Err(PrismaKnown(FOREIGN_KEY_VIOLATION)) && unchanged(db)
                else && r == Ok(ProfileOf(target, true))
                     && db.follows == old(db.follows) + {(currentUserId, target.id)}
    {
      var userToFollow := db.UserByUsername(username);
      if userToFollow.None? {
        return Err(Http(NotFound));
      }
      if userToFollow.value.id == currentUserId {
        return Err(Http(BadRequest));
      }
      var upserted := db.UpsertFollow(currentUserId, userToFollow.value.id);
      if upserted.Err? {
        return Err(upserted.failure);
      }
      r := Ok(ProfileOf(userToFollow.value, true));
    }

    method UnfollowUser(username: string, currentUserId: int) returns (r: Result<Profile>)
      requires db.Valid()
      modifies db`follows
      ensures db.Valid()
      ensures old(db.UserByUsername(username)).None? ==> r == Err(Http(NotFound)) && unchanged(db)
      ensures old(db.UserByUsername(username)).Some? ==>
                var target := old(db.UserByUsername(username)).value;
                && r == Ok(ProfileOf(target, false))
                && db.follows == old(db.follows) - {(currentUserId, target.id)}
    {
      var userToUnfollow := db.UserByUsername(username);
      if userToUnfollow.None? {
        return Err(Http(NotFound));
      }
      db.DeleteFollows(currentUserId, userToUnfollow.value.id);
      r := Ok(ProfileOf(userToUnfollow.value, false));
    }

    /** Following twice is following once: the second call answers as the
        first did and leaves the table as the first left it, at most one edge
        is added, and the profile read afterwards reports the edge. */
    method FollowTwice(username: string, currentUserId: int) returns (first: Result<Profile>, second: Result<Profile>)
      requires db.Valid()
      modifies db`follows
      ensures db.Valid()
      ensures first == second
      ensures first.Ok? ==> GetProfile(username, Some(currentUserId)).Ok?
      ensures first.Ok? && currentUserId != 0 ==> GetProfile(username, Some(currentUserId)).value.following
      ensures first.Ok? ==> |db.follows - old(db.follows)| <= 1
    {
      first := FollowUser(username, currentUserId);
      ghost var between := db.follows;
      second := FollowUser(username, currentUserId);
      assert db.follows == between;
      if first.Ok? {
        var target := db.UserByUsername(username).value;
        assert db.follows - old(db.follows) <= {(currentUserId, target.id)};
        SubsetCardinality(db.follows - old(db.follows), {(currentUserId, target.id)});
      }
    }

    /** Unfollowing twice is unfollowing once. */
    method UnfollowTwice(username: string, currentUserId: int) returns (first: Result<Profile>, second: Result<Profile>)
      requires db.Valid()
      modifies db`follows
      ensures db.Valid()
      ensures first == second
      ensures first.Ok? ==> GetProfile(username, Some(currentUserId)).Ok?
      ensures first.Ok? ==> !GetProfile(username, Some(currentUserId)).value.following
    {
      first := UnfollowUser(username, currentUserId);
      second := UnfollowUser(username, currentUserId);
    }
  }

  lemma SubsetCardinality<T>(a: set<T>, b: set<T>)
    requires a <= b
    ensures |a| <= |b|
  {
    if a != b {
      assert |b| == |a| + |b - a|;
    }
  }
}
