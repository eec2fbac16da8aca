/** The database seed script: recreate the administrator account, then add
    each sample post whose slug is not stored yet. */
module Seed {
  import opened Common
  import opened Blog

  const AdminEmail := "admin@bloggiz.com"
  const AdminName := "Admin User"

  /** An element of `samplePosts`: every column but the id, author and date. */
  datatype SamplePost = SamplePost(title: string, content: string, excerpt: string, slug: string, published: bool)

  /** The `Post` table as the loop sees it: its rows and the next id to hand out. */
  datatype PostTable = PostTable(posts: seq<Post>, nextId: PostId)

  /** One iteration: insert `sample` under the next id unless its slug is
      taken, in which case nothing changes. */
  function InsertIfAbsent(t: PostTable, sample: SamplePost, authorId: UserId, now: nat): (r: PostTable)
    ensures SlugTaken(t.posts, sample.slug) ==> r == t
    ensures !SlugTaken(t.posts, sample.slug) ==>
      && r.nextId == t.nextId + 1
      && |r.posts| == |t.posts| + 1 && r.posts[..|t.posts|] == t.posts
      && var p := r.posts[|t.posts|];
         && p.id == t.nextId && p.slug == sample.slug && p.authorId == authorId
         && p.title == sample.title && p.content == sample.content
         && p.excerpt == Some(sample.excerpt) && p.published == sample.published
  {
    if FindBySlug(t.posts, sample.slug).Some? then t
    else
      PostTable(
        t.posts + [Post(t.nextId, sample.title, sample.content, Some(sample.excerpt), sample.slug,
                        sample.published, authorId, now)],
        t.nextId + 1)
  }

  /** The table after the loop has visited `samples` in order: at most one
      row per sample is added, and one id is used per added row. */
  function SeedPosts(t: PostTable, samples: seq<SamplePost>, authorId: UserId, now: nat): (r: PostTable)
    ensures |t.posts| <= |r.posts| <= |t.posts| + |samples|
    ensures r.nextId == t.nextId + (|r.posts| - |t.posts|)
    decreases |samples|
  {
    if samples == [] then t
    else InsertIfAbsent(SeedPosts(t, samples[..|samples| - 1], authorId, now), samples[|samples| - 1], authorId, now)
  }

  /** The loop keeps slugs and ids unique. */
  lemma {:induction false} SeedPostsKeepsInvariant(t: PostTable, samples: seq<SamplePost>, authorId: UserId, now: nat)
    requires PostTableInvariant(t.posts, t.nextId)
    ensures var r := SeedPosts(t, samples, authorId, now); PostTableInvariant(r.posts, r.nextId)
  {
    if samples != [] {
      var before := SeedPosts(t, samples[..|samples| - 1], authorId, now);
      SeedPostsKeepsInvariant(t, samples[..|samples| - 1], authorId, now);
      var sample := samples[|samples| - 1];
      if FindBySlug(before.posts, sample.slug).None? {
        InsertFreshPost(before.posts, before.nextId,
          Post(before.nextId, sample.title, sample.content, Some(sample.excerpt), sample.slug, sample.published, authorId, now));
      }
    }
  }

  /** The loop only appends: the posts stored before it are left untouched,
      so a post that already has a sample slug is not overwritten; and every
      post it adds has the administrator as author and comes from a sample. */
  lemma {:induction false} SeedPostsOnlyAppends(t: PostTable, samples: seq<SamplePost>, authorId: UserId, now: nat)
    ensures var r := SeedPosts(t, samples, authorId, now);
      && |t.posts| <= |r.posts| && r.posts[..|t.posts|] == t.posts
      && forall i :: |t.posts| <= i < |r.posts| ==>
           && r.posts[i].authorId == authorId
           && exists k :: 0 <= k < |samples| && samples[k].slug == r.posts[i].slug
  {
    if samples != [] {
      var init := samples[..|samples| - 1];
      var before := SeedPosts(t, init, authorId, now);
      SeedPostsOnlyAppends(t, init, authorId, now);
      var r := SeedPosts(t, samples, authorId, now);
      assert r.posts[..|before.posts|] == before.posts;
      forall i | |t.posts| <= i < |r.posts|
        ensures r.posts[i].authorId == authorId
        ensures exists k :: 0 <= k < |samples| && samples[k].slug == r.posts[i].slug
      {
        if i < |before.posts| {
          assert r.posts[i] == before.posts[i];
          var k :| 0 <= k < |init| && init[k].slug == before.posts[i].slug;
          assert samples[k] == init[k];
        } else {
          assert samples[|samples| - 1].slug == r.posts[i].slug;
        }
      }
    }
  }

  /** After the loop every sample slug is stored. */
  lemma {:induction false} SeedPostsCoversSamples(t: PostTable, samples: seq<SamplePost>, authorId: UserId, now: nat)
    ensures forall k :: 0 <= k < |samples| ==> SlugTaken(SeedPosts(t, samples, authorId, now).posts, samples[k].slug)
  {
    if samples != [] {
      var init := samples[..|samples| - 1];
      var before := SeedPosts(t, init, authorId, now);
      var r := SeedPosts(t, samples, authorId, now);
      SeedPostsCoversSamples(t, init, authorId, now);
      SeedPostsOnlyAppends(before, [samples[|samples| - 1]], authorId, now);
      assert [samples[|samples| - 1]][..0] == [];
      assert SeedPosts(before, [samples[|samples| - 1]], authorId, now) == r;
      forall k | 0 <= k < |samples| ensures SlugTaken(r.posts, samples[k].slug) {
        if k < |init| {
          assert samples[k] == init[k];
          var i :| 0 <= i < |before.posts| && before.posts[i].slug == init[k].slug;
          assert r.posts[i] == before.posts[i];
        } else {
          var sample := samples[k];
          if FindBySlug(before.posts, sample.slug).None? {
            assert r.posts[|before.posts|].slug == sample.slug;
          } else {
            var i :| 0 <= i < |before.posts| && before.posts[i].slug == sample.slug;
            assert r.posts[i] == before.posts[i];
          }
        }
      }
    }
  }

  function OtherEmail(email: string): User -> bool {
    (u: User) => u.email != email
  }

  /** `prisma.user.delete({ where: { email } })`: every user under `email` goes. */
  function WithoutEmail(users: seq<User>, email: string): (r: seq<User>)
    ensures forall u :: u in r <==> u in users && u.email != email
  {
    Filter(OtherEmail(email), users)
  }

  function FindUserByEmail(users: seq<User>, email: string): (r: Option<User>)
    ensures r.Some? <==> exists i :: 0 <= i < |users| && users[i].email == email
    ensures r.Some? ==> r.value in users && r.value.email == email
  {
    if users == [] then None
    else if users[0].email == email then Some(users[0])
    else
      var rest := FindUserByEmail(users[1..], email);
      assert forall i :: 0 < i < |users| ==> users[i] == users[1..][i - 1];
      rest
  }

  /** Deleting every user with `email` and appending a fresh one under it keeps
      the `User` invariant. */
  lemma RecreateUser(users: seq<User>, nextId: UserId, admin: User)
    requires UserTableInvariant(users, nextId)
    requires admin.id == nextId
    ensures UserTableInvariant(WithoutEmail(users, admin.email) + [admin], nextId + 1)
  {
    var kept := WithoutEmail(users, admin.email);
    var r := kept + [admin];
    var apart := (u: User, v: User) => u.email != v.email && u.id != v.id;
    FilterKeepsPairwise(OtherEmail(admin.email), users, apart);
    forall i | 0 <= i < |kept| ensures kept[i].id < nextId {
      assert kept[i] in users;
    }
    forall i, j | 0 <= i < j < |r| ensures r[i].email != r[j].email && r[i].id != r[j].id {
      if j == |kept| {
        assert r[i] == kept[i] && kept[i] in kept;
      } else {
        assert r[i] == kept[i] && r[j] == kept[j];
        assert apart(kept[i], kept[j]);
      }
    }
  }

  /** `main`: delete any user under the administrator's email, create the
      administrator afresh, then insert each sample post whose slug is free.
      The bcrypt hash of the password is an input. */
  method SeedDatabase(db: Database, samples: seq<SamplePost>, passwordHash: string, now: nat) returns (admin: User)
    requires db.Valid()
    modifies db
    ensures db.Valid()
    ensures admin == User(old(db.nextUserId), AdminName, AdminEmail, passwordHash, AdminRole)
    ensures db.nextUserId == old(db.nextUserId) + 1
    ensures db.users == WithoutEmail(old(db.users), AdminEmail) + [admin]
    ensures admin in db.users && forall u :: u in db.users && u.email == AdminEmail ==> u == admin
    ensures PostTable(db.posts, db.nextPostId) == SeedPosts(PostTable(old(db.posts), old(db.nextPostId)), samples, admin.id, now)
    ensures |old(db.posts)| <= |db.posts| && db.posts[..|old(db.posts)|] == old(db.posts)
    ensures forall k :: 0 <= k < |samples| ==> SlugTaken(db.posts, samples[k].slug)
  {
    var existingAdmin := FindUserByEmail(db.users, AdminEmail);
    if existingAdmin.Some? {
      db.users := WithoutEmail(db.users, AdminEmail);
    } else {
      FilterKeepsAll(OtherEmail(AdminEmail), db.users);
    }
    admin := User(db.nextUserId, AdminName, AdminEmail, passwordHash, AdminRole);
    RecreateUser(old(db.users), db.nextUserId, admin);
    db.users := db.users + [admin];
    db.nextUserId := db.nextUserId + 1;

    ghost var start := PostTable(db.posts, db.nextPostId);
    for i := 0 to |samples|
      invariant db.nextUserId == old(db.nextUserId) + 1
      invariant db.users == WithoutEmail(old(db.users), AdminEmail) + [admin]
      invariant db.Valid()
      invariant PostTable(db.posts, db.nextPostId) == SeedPosts(start, samples[..i], admin.id, now)
    {
      assert samples[..i + 1][..i] == samples[..i];
      var existingPost := FindBySlug(db.posts, samples[i].slug);
      if existingPost.None? {
        var post := Post(db.nextPostId, samples[i].title, samples[i].content, Some(samples[i].excerpt),
                         samples[i].slug, samples[i].published, admin.id, now);
        InsertFreshPost(db.posts, db.nextPostId, post);
        db.posts := db.posts + [post];
        db.nextPostId := db.nextPostId + 1;
      }
    }
    assert samples[..|samples|] == samples;
    SeedPostsOnlyAppends(start, samples, admin.id, now);
    SeedPostsCoversSamples(start, samples, admin.id, now);
  }
}
