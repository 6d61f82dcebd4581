/** The trope seeder: a fixed table of tropes upserted by name into the
    store, and the name-ordered listing of the trope table. */
module TropeService {
  import opened Wrappers
  import opened Text
  import opened Seqs
  import opened Store

  /** Row `i` of the seed table: 17 romance, 10 science-fiction/fantasy and
      7 drama tropes. */
  function TropeRow(i: nat): Trope
    requires i < 34
  {
    Trope(TropeName(i), TropeDescription(i), TropeCategoryOf(i))
  }

  /** The names of the seed table. */
  function TropeName(i: nat): string
    requires i < 34
  {
    match i
    case 0 => "Enemies to Lovers"
    case 1 => "Friends to Lovers"
    case 2 => "Fake Dating"
    case 3 => "Grumpy x Sunshine"
    case 4 => "Forced Proximity"
    case 5 => "Only One Bed"
    case 6 => "Love Triangle"
    case 7 => "Second Chance Romance"
    case 8 => "Slow Burn"
    case 9 => "Forbidden Love"
    case 10 => "Childhood Friends"
    case 11 => "Marriage of Convenience"
    case 12 => "Soulmates"
    case 13 => "Age Gap"
    case 14 => "Workplace Romance"
    case 15 => "Opposites Attract"
    case 16 => "Mutual Pining"
    case 17 => "Chosen One"
    case 18 => "Found Family"
    case 19 => "Dystopian Society"
    case 20 => "Time Travel"
    case 21 => "Parallel Worlds"
    case 22 => "Post-Apocalyptic Survival"
    case 23 => "Space Romance"
    case 24 => "Superpowered Romance"
    case 25 => "Artificial Intelligence Love"
    case 26 => "Royal x Rebel"
    case 27 => "Unreliable Narrator"
    case 28 => "Dual Timeline"
    case 29 => "Revenge Plot"
    case 30 => "Mystery Lover"
    case 31 => "Coming of Age"
    case 32 => "Redemption Arc"
    case _ => "Whodunnit"
  }

  /** The descriptions of the seed table. */
  function TropeDescription(i: nat): string
    requires i < 34
  {
    match i
    case 0 => "Inimigos que se apaixonam"
    case 1 => "Amigos que viram casal"
    case 2 => "Relacionamento de mentira que vira real"
    case 3 => "Mal-humorado com pessoa radiante"
    case 4 => "Obrigados a conviver juntos — tipo viagem ou confinamento"
    case 5 => "Só tem uma cama! e agora?..."
    case 6 => "Triângulo amoroso"
    case 7 => "Reconciliação com ex ou amor antigo"
    case 8 => "Relacionamento que demora a acontecer"
    case 9 => "Amor proibido — por regras, família, sociedade etc."
    case 10 => "Amizade de infância que vira romance"
    case 11 => "Casamento por contrato ou interesse"
    case 12 => "Almas gêmeas ou destino"
    case 13 => "Diferença de idade considerável"
    case 14 => "Romance no trabalho"
    case 15 => "Personalidades opostas se atraem"
    case 16 => "Ambos apaixonados, mas sem saber do outro"
    case 17 => "O escolhido pra salvar o mundo"
    case 18 => "Grupo que vira uma família real, mesmo sem laços de sangue"
    case 19 => "Sociedade distópica/controladora"
    case 20 => "Viagem no tempo"
    case 21 => "Mundos paralelos ou alternativos"
    case 22 => "Sobrevivência após o fim do mundo"
    case 23 => "Amor entre as estrelas, literalmente"
    case 24 => "Um ou ambos com poderes"
    case 25 => "Romance com IA/androides"
    case 26 => "Membro da realeza se apaixona por alguém do povo ou rebelde"
    case 27 => "Narrador que mente ou distorce a história"
    case 28 => "Duas linhas temporais entrelaçadas"
    case 29 => "Trama de vingança"
    case 30 => "Um dos dois tem um segredo perigoso"
    case 31 => "Amadurecimento e descobertas da juventude"
    case 32 => "Personagem busca redenção"
    case _ => "Quem é o culpado? estilo mistério"
  }

  /** The categories of the seed table: the rows are grouped by category. */
  function TropeCategoryOf(i: nat): TropeCategory
    requires i < 34
  {
    if i < 17 then Romance else if i < 27 then SciFiFantasy else Drama
  }

  /** The seed table, in order. */
  const TropesData: seq<Trope> := seq(34, i requires 0 <= i < 34 => TropeRow(i))

  /** How many of the rows from `i` on have category `c`. */
  function CountFrom(c: TropeCategory, i: nat): nat
    requires i <= 34
    decreases 34 - i
  {
    if i == 34 then 0 else (if TropeCategoryOf(i) == c then 1 else 0) + CountFrom(c, i + 1)
  }

  lemma {:induction false} CountFromRun(c: TropeCategory, i: nat, j: nat)
    requires i <= j <= 34
    requires forall k :: i <= k < j ==> TropeCategoryOf(k) == c
    ensures CountFrom(c, i) == (j - i) + CountFrom(c, j)
    decreases j - i
  {
    if i < j {
      CountFromRun(c, i + 1, j);
    }
  }

  lemma {:induction false} CountFromSkip(c: TropeCategory, i: nat, j: nat)
    requires i <= j <= 34
    requires forall k :: i <= k < j ==> TropeCategoryOf(k) != c
    ensures CountFrom(c, i) == CountFrom(c, j)
    decreases j - i
  {
    if i < j {
      CountFromSkip(c, i + 1, j);
    }
  }

  /** The table holds 34 rows: 17 romance, 10 science-fiction/fantasy, 7 drama. */
  lemma TropesDataSize()
    ensures |TropesData| == 34
  {
  }

  lemma RomanceCount()
    ensures CountFrom(Romance, 0) == 17
  {
    CountFromRun(Romance, 0, 17);
    CountFromSkip(Romance, 17, 34);
  }

  lemma SciFiFantasyCount()
    ensures CountFrom(SciFiFantasy, 0) == 10
  {
    CountFromSkip(SciFiFantasy, 0, 17);
    CountFromRun(SciFiFantasy, 17, 27);
    CountFromSkip(SciFiFantasy, 27, 34);
  }

  lemma DramaCount()
    ensures CountFrom(Drama, 0) == 7
  {
    CountFromSkip(Drama, 0, 27);
    CountFromRun(Drama, 27, 34);
  }

  /** The position in the table of the row with this name: the rows are told
      apart by their first two letters and their length. */
  function RowOf(name: string): int
  {
    if |name| < 2 then -1
    else
      match |name|
      case 7 => if (name[0], name[1]) == ('A', 'g') then 13 else -1
      case 9 => if (name[0], name[1]) == ('S', 'l') then 8 else if (name[0], name[1]) == ('S', 'o') then 12 else if (name[0], name[1]) == ('W', 'h') then 33 else -1
      case 10 => if (name[0], name[1]) == ('C', 'h') then 17 else -1
      case 11 => if (name[0], name[1]) == ('F', 'a') then 2 else if (name[0], name[1]) == ('T', 'i') then 20 else -1
      case 12 => if (name[0], name[1]) == ('O', 'n') then 5 else if (name[0], name[1]) == ('F', 'o') then 18 else if (name[0], name[1]) == ('R', 'e') then 29 else -1
      case 13 => if (name[0], name[1]) == ('L', 'o') then 6 else if (name[0], name[1]) == ('M', 'u') then 16 else if (name[0], name[1]) == ('S', 'p') then 23 else if (name[0], name[1]) == ('R', 'o') then 26 else if (name[0], name[1]) == ('D', 'u') then 28 else if (name[0], name[1]) == ('M', 'y') then 30 else if (name[0], name[1]) == ('C', 'o') then 31 else -1
      case 14 => if (name[0], name[1]) == ('F', 'o') then 9 else if (name[0], name[1]) == ('R', 'e') then 32 else -1
      case 15 => if (name[0], name[1]) == ('P', 'a') then 21 else -1
      case 16 => if (name[0], name[1]) == ('F', 'o') then 4 else -1
      case 17 => if (name[0], name[1]) == ('E', 'n') then 0 else if (name[0], name[1]) == ('F', 'r') then 1 else if (name[0], name[1]) == ('G', 'r') then 3 else if (name[0], name[1]) == ('C', 'h') then 10 else if (name[0], name[1]) == ('W', 'o') then 14 else if (name[0], name[1]) == ('O', 'p') then 15 else if (name[0], name[1]) == ('D', 'y') then 19 else -1
      case 19 => if (name[0], name[1]) == ('U', 'n') then 27 else -1
      case 20 => if (name[0], name[1]) == ('S', 'u') then 24 else -1
      case 21 => if (name[0], name[1]) == ('S', 'e') then 7 else -1
      case 23 => if (name[0], name[1]) == ('M', 'a') then 11 else -1
      case 25 => if (name[0], name[1]) == ('P', 'o') then 22 else -1
      case 28 => if (name[0], name[1]) == ('A', 'r') then 25 else -1
      case _ => -1
  }

  lemma RowOfRange0(i: nat)
    requires 0 <= i < 6
    ensures RowOf(TropeName(i)) == i
  {
  }

  lemma RowOfRange6(i: nat)
    requires 6 <= i < 12
    ensures RowOf(TropeName(i)) == i
  {
  }

  lemma RowOfRange12(i: nat)
    requires 12 <= i < 17
    ensures RowOf(TropeName(i)) == i
  {
  }

  lemma RowOfRange17(i: nat)
    requires 17 <= i < 23
    ensures RowOf(TropeName(i)) == i
  {
  }

  lemma RowOfRange23(i: nat)
    requires 23 <= i < 28
    ensures RowOf(TropeName(i)) == i
  {
  }

  lemma RowOfRange28(i: nat)
    requires 28 <= i < 34
    ensures RowOf(TropeName(i)) == i
  {
  }

  /** Each row's name leads back to its position. */
  lemma RowOfName(i: nat)
    requires i < 34
    ensures RowOf(TropeName(i)) == i
  {
    if i < 6 { RowOfRange0(i); }
    else if i < 12 { RowOfRange6(i); }
    else if i < 17 { RowOfRange12(i); }
    else if i < 23 { RowOfRange17(i); }
    else if i < 28 { RowOfRange23(i); }
    else { RowOfRange28(i); }
  }

  /** The names of the seed table are distinct. */
  lemma TropesDataUnique()
    ensures UniqueTropeNames(TropesData)
  {
    forall i, j | 0 <= i < j < |TropesData|
      ensures TropesData[i].name != TropesData[j].name
    {
      RowOfName(i);
      RowOfName(j);
    }
  }

  // ---------------------------------------------------------------
  // seedTropes
  // ---------------------------------------------------------------

  /** The position of the trope named `name`, if any. */
  function FindByName(tropes: seq<Trope>, name: string): (r: Option<nat>)
    ensures r.None? <==> forall i :: 0 <= i < |tropes| ==> tropes[i].name != name
    ensures r.Some? ==> r.value < |tropes| && tropes[r.value].name == name
  {
    if tropes == [] then None
    else if tropes[|tropes| - 1].name == name then Some(|tropes| - 1)
    else FindByName(tropes[..|tropes| - 1], name)
  }

  /** `prisma.trope.upsert` keyed by the unique name: the row with that name
      takes the new description and category, or a new row is appended. */
  function Upsert(tropes: seq<Trope>, row: Trope): seq<Trope>
  {
    match FindByName(tropes, row.name)
    case Some(i) => tropes[i := row]
    case None => tropes + [row]
  }

  /** The store after upserting every row of `rows` in order. */
  function SeedAll(tropes: seq<Trope>, rows: seq<Trope>): seq<Trope>
    decreases |rows|
  {
    if rows == [] then tropes else SeedAll(Upsert(tropes, rows[0]), rows[1..])
  }

  /** An upsert keeps the names unique, keeps every existing name at its
      position, and leaves every other trope as it was. */
  lemma UpsertFacts(tropes: seq<Trope>, row: Trope)
    requires UniqueTropeNames(tropes)
    ensures var r := Upsert(tropes, row);
      && UniqueTropeNames(r)
      && |tropes| <= |r| <= |tropes| + 1
      && (forall i :: 0 <= i < |tropes| ==> r[i].name == tropes[i].name)
      && (forall i :: 0 <= i < |tropes| && tropes[i].name != row.name ==> r[i] == tropes[i])
      && row in r
  {
  }

  /** `row` present, as is, in a table with unique names: upserting it changes nothing. */
  lemma UpsertPresent(tropes: seq<Trope>, row: Trope)
    requires UniqueTropeNames(tropes) && row in tropes
    ensures Upsert(tropes, row) == tropes
  {
    var k :| 0 <= k < |tropes| && tropes[k] == row;
    var f := FindByName(tropes, row.name);
    assert f.Some? && f.value == k;
  }

  /** Seeding keeps the names unique, keeps every existing trope at its
      position with its name, and leaves tropes not named in the table
      untouched. */
  lemma {:induction false} SeedAllKeeps(tropes: seq<Trope>, rows: seq<Trope>)
    requires UniqueTropeNames(tropes)
    ensures var r := SeedAll(tropes, rows);
      && UniqueTropeNames(r)
      && |tropes| <= |r|
      && (forall i :: 0 <= i < |tropes| ==> r[i].name == tropes[i].name)
      && (forall i :: 0 <= i < |tropes| && (forall j :: 0 <= j < |rows| ==> rows[j].name != tropes[i].name) ==>
            r[i] == tropes[i])
    decreases |rows|
  {
    if rows != [] {
      UpsertFacts(tropes, rows[0]);
      var u := Upsert(tropes, rows[0]);
      SeedAllKeeps(u, rows[1..]);
      forall i | 0 <= i < |tropes| && (forall j :: 0 <= j < |rows| ==> rows[j].name != tropes[i].name)
        ensures SeedAll(tropes, rows)[i] == tropes[i]
      {
        assert rows[0].name != tropes[i].name;
        assert forall j :: 0 <= j < |rows[1..]| ==> rows[1..][j].name != u[i].name by {
          forall j | 0 <= j < |rows[1..]|
            ensures rows[1..][j].name != u[i].name
          {
            assert rows[1..][j] == rows[j + 1];
          }
        }
      }
    }
  }

  /** After seeding, every row of a table with unique names is in the store
      exactly as the table gives it, whatever the store held before. */
  lemma {:induction false} SeedAllContains(tropes: seq<Trope>, rows: seq<Trope>)
    requires UniqueTropeNames(tropes) && UniqueTropeNames(rows)
    ensures forall j :: 0 <= j < |rows| ==> rows[j] in SeedAll(tropes, rows)
    decreases |rows|
  {
    if rows != [] {
      UpsertFacts(tropes, rows[0]);
      var u := Upsert(tropes, rows[0]);
      var k :| 0 <= k < |u| && u[k] == rows[0];
      SeedAllContains(u, rows[1..]);
      SeedAllKeeps(u, rows[1..]);
      forall j | 0 <= j < |rows|
        ensures rows[j] in SeedAll(tropes, rows)
      {
        if j == 0 {
          assert forall m :: 0 <= m < |rows[1..]| ==> rows[1..][m].name != u[k].name by {
            forall m | 0 <= m < |rows[1..]|
              ensures rows[1..][m].name != u[k].name
            {
              assert rows[1..][m] == rows[m + 1];
            }
          }
          assert SeedAll(u, rows[1..])[k] == rows[0];
        } else {
          assert rows[j] == rows[1..][j - 1];
        }
      }
    }
  }

  /** Seeding a store that already holds every row as is changes nothing. */
  lemma {:induction false} SeedAllPresent(tropes: seq<Trope>, rows: seq<Trope>)
    requires UniqueTropeNames(tropes)
    requires forall j :: 0 <= j < |rows| ==> rows[j] in tropes
    ensures SeedAll(tropes, rows) == tropes
    decreases |rows|
  {
    if rows != [] {
      UpsertPresent(tropes, rows[0]);
      assert forall j :: 0 <= j < |rows[1..]| ==> rows[1..][j] in tropes by {
        forall j | 0 <= j < |rows[1..]|
          ensures rows[1..][j] in tropes
        {
          assert rows[1..][j] == rows[j + 1];
        }
      }
      SeedAllPresent(tropes, rows[1..]);
    }
  }

  /** Seeding twice leaves the same store as seeding once. */
  lemma SeedIdempotent(tropes: seq<Trope>)
    requires UniqueTropeNames(tropes)
    ensures SeedAll(SeedAll(tropes, TropesData), TropesData) == SeedAll(tropes, TropesData)
  {
    TropesDataUnique();
    SeedAllKeeps(tropes, TropesData);
    SeedAllContains(tropes, TropesData);
    SeedAllPresent(SeedAll(tropes, TropesData), TropesData);
  }

  /** `seedTropes`: upserts every row of the table in order. It has no
      failure outcome: errors are swallowed. */
  method SeedTropes(db: Db)
    requires db.Valid()
    modifies db`tropes
    ensures db.Valid()
    ensures db.tropes == SeedAll(old(db.tropes), TropesData)
  {
    ghost var start := db.tropes;
    var k := 0;
    while k < |TropesData|
      invariant 0 <= k <= |TropesData|
      invariant db.Valid()
      invariant SeedAll(start, TropesData) == SeedAll(db.tropes, TropesData[k..])
    {
      assert TropesData[k..] == [TropesData[k]] + TropesData[k + 1..];
      UpsertTrope(db, TropesData[k]);
      k := k + 1;
    }
  }

  /** One `prisma.trope.upsert` on the trope table. */
  method UpsertTrope(db: Db, row: Trope)
    requires db.Valid()
    modifies db`tropes
    ensures db.Valid()
    ensures db.tropes == Upsert(old(db.tropes), row)
  {
    UpsertFacts(db.tropes, row);
    db.tropes := Upsert(db.tropes, row);
    assert forall u :: u in db.users ==>
      UserLinksResolve(db.users[u], db.users, db.books, |db.tropes|, db.categories, db.authors, db.languages) by {
      forall u | u in db.users
        ensures UserLinksResolve(db.users[u], db.users, db.books, |db.tropes|, db.categories, db.authors, db.languages)
      {
        assert UserLinksResolve(db.users[u], db.users, db.books, |old(db.tropes)|, db.categories, db.authors, db.languages);
      }
    }
  }

  // ---------------------------------------------------------------
  // getAllTropes
  // ---------------------------------------------------------------

  function ByName(a: (nat, Trope), b: (nat, Trope)): bool
  {
    LexLe(a.1.name, b.1.name)
  }

  function Indexed(tropes: seq<Trope>): (r: seq<(nat, Trope)>)
    ensures |r| == |tropes|
    ensures forall i :: 0 <= i < |r| ==> r[i] == (i, tropes[i])
  {
    if tropes == [] then [] else Indexed(tropes[..|tropes| - 1]) + [(|tropes| - 1, tropes[|tropes| - 1])]
  }

  /** `getAllTropes`: every trope with its id, ordered by name ascending. */
  function AllTropes(tropes: seq<Trope>): seq<(nat, Trope)>
  {
    SortBy(Indexed(tropes), ByName)
  }

  /** The listing holds each trope exactly once with its id, in name order. */
  lemma AllTropesFacts(tropes: seq<Trope>)
    ensures var r := AllTropes(tropes);
      && multiset(r) == multiset(Indexed(tropes))
      && (forall i :: 0 <= i < |tropes| ==> (i, tropes[i]) in r)
      && (forall i, j :: 0 <= i < j < |r| ==> LexLe(r[i].1.name, r[j].1.name))
  {
    var le := ByName;
    assert Total(le) by {
      forall a, b ensures le(a, b) || le(b, a) { LexLeTotal(a.1.name, b.1.name); }
    }
    assert Transitive(le) by {
      forall a, b, c | le(a, b) && le(b, c) ensures le(a, c) { LexLeTransitive(a.1.name, b.1.name, c.1.name); }
    }
    SortBySorted(Indexed(tropes), le);
    var r := AllTropes(tropes);
    forall i | 0 <= i < |tropes|
      ensures (i, tropes[i]) in r
    {
      assert Indexed(tropes)[i] == (i, tropes[i]);
      assert (i, tropes[i]) in multiset(Indexed(tropes));
    }
  }
}
