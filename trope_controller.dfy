/** `markTropeFavorite`: the signed-in user marks a trope as a favourite. */
module TropeController {
  import opened Wrappers
  import opened Store

  const TropeNotFound := "Trope não encontrada"
  const MarkFailed := "Erro ao marcar a trope como favorita"
  const MarkDone := "Trope marcada como favorita com sucesso"

  /** The answer and the users table after marking trope `tropeId` for the
      caller, given the users table and the number of tropes. */
  function MarkSpec(users: map<string, User>, tropeCount: nat, auth: Option<AuthUser>, tropeId: int)
    : (Response<string>, map<string, User>)
  {
    if auth.None? then (Error(401, NotAuthenticated), users)
    else if !(0 <= tropeId < tropeCount) then (Error(404, TropeNotFound), users)
    else
      match Ensured(users, auth.value)
      case None => (Error(500, MarkFailed), users)
      case Some(us) =>
        var u := us[auth.value.uid];
        (Ok(200, MarkDone), us[auth.value.uid := u.(tropes := u.tropes + {tropeId})])
  }

  /** A request without a user or for an unknown trope changes nothing; a
      successful one adds exactly the trope to the caller's tropes and
      changes nobody else. */
  lemma MarkSpecFacts(users: map<string, User>, tropeCount: nat, auth: Option<AuthUser>, tropeId: int)
    ensures var (res, after) := MarkSpec(users, tropeCount, auth, tropeId);
      && (auth.None? ==> res.Error? && res.status == 401 && after == users)
      && (auth.Some? && !(0 <= tropeId < tropeCount) ==> res.Error? && res.status == 404 && after == users)
      && (res.Error? ==> after == users)
      && (res.Ok? <==> auth.Some? && 0 <= tropeId < tropeCount && Ensured(users, auth.value).Some?)
      && (res.Ok? ==>
            && after.Keys == users.Keys + {auth.value.uid}
            && after[auth.value.uid].tropes == Ensured(users, auth.value).value[auth.value.uid].tropes + {tropeId}
            && (forall v :: v in users && v != auth.value.uid ==> after[v] == users[v]))
  {
  }

  /** Marking the same trope twice leaves the same table as marking it once. */
  lemma MarkIdempotent(users: map<string, User>, tropeCount: nat, auth: Option<AuthUser>, tropeId: int)
    ensures var once := MarkSpec(users, tropeCount, auth, tropeId);
      MarkSpec(once.1, tropeCount, auth, tropeId) == once
  {
    var once := MarkSpec(users, tropeCount, auth, tropeId);
    if once.0.Ok? {
      var uid := auth.value.uid;
      var u := once.1[uid];
      assert u.(tropes := u.tropes + {tropeId}) == u;
      assert once.1[uid := u] == once.1;
    }
  }

  method MarkTropeFavorite(db: Db, auth: Option<AuthUser>, tropeId: int) returns (res: Response<string>)
    requires db.Valid()
    modifies db`users
    ensures db.Valid()
    ensures (res, db.users) == MarkSpec(old(db.users), |db.tropes|, auth, tropeId)
  {
    if auth.None? {
      return Error(401, NotAuthenticated);
    }
    if !(0 <= tropeId < |db.tropes|) {
      return Error(404, TropeNotFound);
    }
    var ok := db.EnsureUser(auth.value);
    if !ok {
      return Error(500, MarkFailed);
    }
    var u := db.users[auth.value.uid];
    var u' := u.(tropes := u.tropes + {tropeId});
    assert UserLinksResolve(u, db.users, db.books, |db.tropes|, db.categories, db.authors, db.languages);
    assert forall t :: t in u'.tropes + u'.likedTropes + u'.dislikedTropes ==> t < |db.tropes| by {
      forall t | t in u'.tropes + u'.likedTropes + u'.dislikedTropes
        ensures t < |db.tropes|
      {
        if t != tropeId {
          assert t in u.tropes + u.likedTropes + u.dislikedTropes;
        }
      }
    }
    db.PutUser(auth.value.uid, u');
    return Ok(200, MarkDone);
  }
}
