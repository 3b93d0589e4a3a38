/**
Routing of product apps to their own databases: a startup check that compares each route only with
the last one seen for its app, and a router that takes the first matching route.
*/
module ProductDbRouter {
  import opened Options

  datatype Route = Route(app: string, database: string)

  // ---------------------------------------------------------------------- the check

  /** The database of the last route of an app. */
  function LastFor(routes: seq<Route>, app: string): Option<string> {
    if routes == [] then None
    else if routes[|routes| - 1].app == app then Some(routes[|routes| - 1].database)
    else LastFor(routes[..|routes| - 1], app)
  }

  /** The apps reported, one entry for every route that disagrees with the last one seen for its app. */
  function Errors(routes: seq<Route>): seq<string> {
    if routes == [] then []
    else
      var front, last := routes[..|routes| - 1], routes[|routes| - 1];
      Errors(front) + if LastFor(front, last.app) in {None, Some(last.database)} then [] else [last.app]
  }

  method CheckProductDbRoutes(routes: seq<Route>) returns (errors: seq<string>)
    ensures errors == Errors(routes)
  {
    errors := [];
    var databases: map<string, string> := map[];
    for i := 0 to |routes|
      invariant errors == Errors(routes[..i])
      invariant forall app :: LastFor(routes[..i], app) == if app in databases then Some(databases[app]) else None
    {
      assert routes[..i + 1][..i] == routes[..i];
      var route := routes[i];
      if route.app in databases && databases[route.app] != route.database {
        errors := errors + [route.app];
      }
      databases := databases[route.app := route.database];
    }
    assert routes[..|routes|] == routes;
  }

  /** All routes of one app name the same database. */
  ghost predicate Agree(routes: seq<Route>, app: string) {
    forall r, s :: r in routes && s in routes && r.app == s.app == app ==> r.database == s.database
  }

  lemma {:induction false} LastForIsARoute(routes: seq<Route>, app: string)
    ensures LastFor(routes, app).Some? ==> Route(app, LastFor(routes, app).value) in routes
    ensures LastFor(routes, app).None? <==> forall r :: r in routes ==> r.app != app
  {
    if routes != [] {
      LastForIsARoute(routes[..|routes| - 1], app);
      assert routes == routes[..|routes| - 1] + [routes[|routes| - 1]];
    }
  }

  /** Comparing neighbours is enough: an app is reported exactly when some two of its routes disagree. */
  lemma {:induction false} ReportedExactlyWhenDisagreeing(routes: seq<Route>, app: string)
    ensures app !in Errors(routes) <==> Agree(routes, app)
  {
    if routes != [] {
      var front, last := routes[..|routes| - 1], routes[|routes| - 1];
      ReportedExactlyWhenDisagreeing(front, app);
      NewestAgrees(front, last, app);
      assert routes == front + [last];
    }
  }

  /** A further route agrees with all routes of its app when it agrees with the last one. */
  lemma NewestAgrees(front: seq<Route>, last: Route, app: string)
    ensures Agree(front + [last], app) <==>
            Agree(front, app) && (last.app == app ==> LastFor(front, app) in {None, Some(last.database)})
  {
    LastForIsARoute(front, app);
    assert last in front + [last];
    assert forall r :: r in front + [last] <==> r in front || r == last;
  }

  /** The check is silent exactly when any two routes of one app name the same database. */
  lemma SilentExactlyWhenConsistent(routes: seq<Route>)
    ensures Errors(routes) == [] <==> forall app :: Agree(routes, app)
  {
    forall app ensures app !in Errors(routes) <==> Agree(routes, app) {
      ReportedExactlyWhenDisagreeing(routes, app);
    }
    if Errors(routes) != [] {
      assert Errors(routes)[0] in Errors(routes);
    }
  }

  // --------------------------------------------------------------------- the router

  function Writer(database: string): string { database + "_db_writer" }

  function Reader(database: string): string { database + "_db_reader" }

  function Direct(database: string): string { database + "_db_direct" }

  /** The routes whose writer is configured. */
  function Active(routes: seq<Route>, configured: set<string>): seq<Route> {
    if routes == [] then []
    else (if Writer(routes[0].database) in configured then [routes[0]] else []) + Active(routes[1..], configured)
  }

  /** The first route of an app; models without metadata have no app. */
  function DatabaseOf(routes: seq<Route>, app: Option<string>): Option<string> {
    if routes == [] then None
    else if app == Some(routes[0].app) then Some(routes[0].database)
    else DatabaseOf(routes[1..], app)
  }

  function DbForRead(routes: seq<Route>, app: Option<string>, test: bool): Option<string> {
    var database := DatabaseOf(routes, app);
    if database.None? then None else Some(if test then Writer(database.value) else Reader(database.value))
  }

  function DbForWrite(routes: seq<Route>, app: Option<string>): Option<string> {
    var database := DatabaseOf(routes, app);
    if database.None? then None else Some(Writer(database.value))
  }

  function AllowRelation(routes: seq<Route>, app1: Option<string>, app2: Option<string>): Option<bool> {
    var d1, d2 := DatabaseOf(routes, app1), DatabaseOf(routes, app2);
    if d1.Some? || d2.Some? then Some(d1 == d2) else None
  }

  predicate IsProductAlias(routes: seq<Route>, db: string) {
    exists r :: r in routes && (db == Writer(r.database) || db == Reader(r.database) || db == Direct(r.database))
  }

  function AllowMigrate(routes: seq<Route>, db: string, app: string): Option<bool> {
    var database := DatabaseOf(routes, Some(app));
    if database.Some? then Some(db == Writer(database.value) || db == Direct(database.value))
    else if IsProductAlias(routes, db) then Some(false)
    else None
  }

  lemma {:induction false} DatabaseOfIsARoute(routes: seq<Route>, app: string)
    ensures DatabaseOf(routes, Some(app)).Some? ==> Route(app, DatabaseOf(routes, Some(app)).value) in routes
    ensures DatabaseOf(routes, Some(app)).None? <==> forall r :: r in routes ==> r.app != app
  {
    if routes != [] {
      DatabaseOfIsARoute(routes[1..], app);
      assert routes == [routes[0]] + routes[1..];
      assert routes[0] in routes;
    }
  }

  lemma {:induction false} NoAppNoDatabase(routes: seq<Route>)
    ensures DatabaseOf(routes, None).None?
  {
    if routes != [] {
      NoAppNoDatabase(routes[1..]);
    }
  }

  lemma {:induction false} ActiveMembers(routes: seq<Route>, configured: set<string>, r: Route)
    ensures r in Active(routes, configured) <==> r in routes && Writer(r.database) in configured
  {
    if routes != [] {
      ActiveMembers(routes[1..], configured, r);
      assert routes == [routes[0]] + routes[1..];
    }
  }

  /** When the check is silent, every answer of the router is the same for any order of the configured routes. */
  lemma OrderDoesNotMatter(routes: seq<Route>, other: seq<Route>, configured: set<string>)
    requires Errors(routes) == [] && forall r :: r in routes <==> r in other
    ensures var rs, os := Active(routes, configured), Active(other, configured);
            && (forall app :: DatabaseOf(rs, app) == DatabaseOf(os, app))
            && (forall app, test :: DbForRead(rs, app, test) == DbForRead(os, app, test))
            && (forall app :: DbForWrite(rs, app) == DbForWrite(os, app))
            && (forall app1, app2 :: AllowRelation(rs, app1, app2) == AllowRelation(os, app1, app2))
            && (forall db, app :: AllowMigrate(rs, db, app) == AllowMigrate(os, db, app))
  {
    var rs, os := Active(routes, configured), Active(other, configured);
    SilentExactlyWhenConsistent(routes);
    forall r ensures r in rs <==> r in os {
      ActiveMembers(routes, configured, r);
      ActiveMembers(other, configured, r);
    }
    forall app ensures DatabaseOf(rs, app) == DatabaseOf(os, app) {
      if app.None? {
        NoAppNoDatabase(rs);
        NoAppNoDatabase(os);
      } else {
        SameFirst(routes, configured, rs, os, app.value);
      }
    }
  }

  lemma SameFirst(routes: seq<Route>, configured: set<string>, rs: seq<Route>, os: seq<Route>, app: string)
    requires Agree(routes, app) && rs == Active(routes, configured) && forall r :: r in rs <==> r in os
    ensures DatabaseOf(rs, Some(app)) == DatabaseOf(os, Some(app))
  {
    DatabaseOfIsARoute(rs, app);
    DatabaseOfIsARoute(os, app);
    if DatabaseOf(rs, Some(app)).Some? && DatabaseOf(os, Some(app)).Some? {
      ActiveMembers(routes, configured, Route(app, DatabaseOf(rs, Some(app)).value));
      ActiveMembers(routes, configured, Route(app, DatabaseOf(os, Some(app)).value));
    }
  }

  /** An app is written to a database its migrations may run on. */
  lemma WritesAreMigrated(routes: seq<Route>, app: string)
    ensures DbForWrite(routes, Some(app)).Some? ==>
              AllowMigrate(routes, DbForWrite(routes, Some(app)).value, app) == Some(true)
  {
  }

  lemma RelationIsSymmetric(routes: seq<Route>, app1: Option<string>, app2: Option<string>)
    ensures AllowRelation(routes, app1, app2) == AllowRelation(routes, app2, app1)
  {
  }

  lemma AliasNamesDatabase(d: string, e: string)
    ensures Writer(d) == Writer(e) ==> d == e
    ensures Direct(d) == Direct(e) ==> d == e
    ensures Writer(d) != Direct(e)
  {
    if Writer(d) == Writer(e) {
      assert Writer(d)[..|Writer(d)| - 10] == d && Writer(e)[..|Writer(e)| - 10] == e;
    }
    if Direct(d) == Direct(e) {
      assert Direct(d)[..|Direct(d)| - 10] == d && Direct(e)[..|Direct(e)| - 10] == e;
    }
    assert Writer(d)[|Writer(d)| - 1] == 'r' && Direct(e)[|Direct(e)| - 1] == 't';
  }

  /** Two routed apps may migrate on the same alias only when related objects of theirs are allowed. */
  lemma SharedAliasMeansRelated(routes: seq<Route>, db: string, app1: string, app2: string)
    requires AllowMigrate(routes, db, app1) == Some(true) && AllowMigrate(routes, db, app2) == Some(true)
    ensures AllowRelation(routes, Some(app1), Some(app2)) == Some(true)
  {
    AliasNamesDatabase(DatabaseOf(routes, Some(app1)).value, DatabaseOf(routes, Some(app2)).value);
    AliasNamesDatabase(DatabaseOf(routes, Some(app2)).value, DatabaseOf(routes, Some(app1)).value);
  }

  /** Reads go to the same database as writes, on its writer in tests and on its reader otherwise. */
  lemma ReadsShareDatabase(routes: seq<Route>, app: Option<string>, database: string)
    ensures DbForWrite(routes, app) == Some(Writer(database)) <==>
            DbForRead(routes, app, false) == Some(Reader(database))
    ensures DbForRead(routes, app, true) == DbForWrite(routes, app)
  {
    var found := DatabaseOf(routes, app);
    if found.Some? {
      AliasNamesDatabase(found.value, database);
      if Reader(found.value) == Reader(database) {
        assert Reader(found.value)[..|Reader(found.value)| - 10] == found.value;
        assert Reader(database)[..|Reader(database)| - 10] == database;
      }
    }
  }

  // ------------------------------------------------------------ the answers, in words

  /** Route k is the first for the app. */
  ghost predicate FirstRoute(routes: seq<Route>, app: string, k: nat) {
    k < |routes| && routes[k].app == app && forall j :: 0 <= j < k ==> routes[j].app != app
  }

  lemma {:induction false} FirstRouteDecides(routes: seq<Route>, app: string, k: nat)
    requires FirstRoute(routes, app, k)
    ensures DatabaseOf(routes, Some(app)) == Some(routes[k].database)
  {
    if k > 0 {
      assert FirstRoute(routes[1..], app, k - 1) by {
        forall j | 0 <= j < k - 1 ensures routes[1..][j].app != app {
          assert routes[1..][j] == routes[j + 1];
        }
      }
      FirstRouteDecides(routes[1..], app, k - 1);
    }
  }

  /** A routed app is read, written and migrated on the aliases of its first route's database, and nowhere else. */
  lemma RoutedAnswers(routes: seq<Route>, app: string, k: nat, db: string)
    requires FirstRoute(routes, app, k)
    ensures var database := routes[k].database;
            && DbForRead(routes, Some(app), false) == Some(database + "_db_reader")
            && DbForRead(routes, Some(app), true) == Some(database + "_db_writer")
            && DbForWrite(routes, Some(app)) == Some(database + "_db_writer")
            && AllowMigrate(routes, db, app) == Some(db == database + "_db_writer" || db == database + "_db_direct")
  {
    FirstRouteDecides(routes, app, k);
  }

  /** An app without a route is left to the default database, and its migrations are kept off every product alias. */
  lemma UnroutedAnswers(routes: seq<Route>, app: string, db: string)
    requires forall r :: r in routes ==> r.app != app
    ensures DbForRead(routes, Some(app), false) == DbForRead(routes, Some(app), true) == None
    ensures DbForWrite(routes, Some(app)) == None
    ensures AllowMigrate(routes, db, app) ==
            if exists r :: r in routes && (db == r.database + "_db_writer" || db == r.database + "_db_reader" ||
                                           db == r.database + "_db_direct") then Some(false) else None
  {
    DatabaseOfIsARoute(routes, app);
  }

  /** Objects of two apps are related exactly when both are routed to one database; with neither routed, no opinion. */
  lemma RelationIsExact(routes: seq<Route>, app1: string, app2: string, i: nat, k: nat)
    requires FirstRoute(routes, app1, i)
    ensures FirstRoute(routes, app2, k) ==>
              AllowRelation(routes, Some(app1), Some(app2)) == Some(routes[i].database == routes[k].database)
    ensures (forall r :: r in routes ==> r.app != app2) ==>
              AllowRelation(routes, Some(app1), Some(app2)) == Some(false) &&
              AllowRelation(routes, Some(app2), Some(app2)) == None
  {
    FirstRouteDecides(routes, app1, i);
    DatabaseOfIsARoute(routes, app2);
    if FirstRoute(routes, app2, k) {
      FirstRouteDecides(routes, app2, k);
    }
  }
}
