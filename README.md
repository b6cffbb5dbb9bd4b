# Vomo jersey management admin console — a Dafny model

This project models the core of the Vomo jersey management system's admin console: the Go
backend's middleware, handlers and services, the frontend's shell (content loader, router and
menu) and the selection logic of six page controllers (role, division, employee, region, office,
product). Each core source file becomes one module:

- Go functions that compute a value are Dafny functions.
- Handlers, middleware and services that write to a request context or a repository are methods
  on classes whose fields hold that state. The gin context is `Gin.Context`. Repositories are
  in-memory tables.
- Each JavaScript page controller is a class. Its fields are the controller's own fields and the
  state of the dialog it draws. API calls are appended to a `calls` log and toasts to a
  `notices` log. The outcome of each awaited call is a boolean parameter.

Shared modules:

- `Wrappers`: `Option` and `Result`.
- `Text`: ASCII case mapping, substring search, trimming, `strings.Split`, `strconv.Atoi`.
- `JsSet`: a JavaScript `Set` as an insertion-ordered sequence without duplicates.
- `Pages`: the toasts, the search filter and the rendered lists that the dialogs share.
- `Http`, `Gin`: status replies and the gin request context.
- `MapOrder`: a Go map's iteration order.
- `Domain`: the entities the services store.
- `Search`: the first-match lookup that gorm's `First` and JavaScript's `find` perform, shared by every table and grid.

Things the program cannot see are parameters:

- the outcome of an I/O call;
- a token validator, bcrypt, uuid parsing;
- the order in which a Go map is ranged over.

## Model

| member | source | states |
|---|---|---|
| AuditContext.StripBearer | Backend/internal/infrastructure/middleware/audit_context.go:23-26 | "Bearer " is removed, and the rest kept, exactly when the header is longer than that prefix and starts with it; any other header is used whole |
| AuditContext.StripBearerVersusTrimPrefix | Backend/internal/infrastructure/middleware/audit_context.go:24-26 | the strip agrees with `strings.TrimPrefix(h, "Bearer ")` on every header except "Bearer " itself, which it keeps whole |
| AuditContext.SetAuditContext | Backend/internal/infrastructure/middleware/audit_context.go:20-38 | the chain always continues; the user context (username and tenant of the claims) is set under the key exactly when the token validates; nothing else in the context changes |
| AuditMiddleware.SetUserContext | Backend/internal/middleware/audit.go:12-39 | a missing username aborts with 401 (checked first); a missing tenant id aborts with 400; values of the wrong type panic; otherwise the same user context is set in the gin context and the request context, then the chain continues |
| Config.GetEnv | Backend/internal/config/config.go:54-60 | the variable's value when set and non-empty, else the default |
| Config.GetEnvNeverEmptyUnlessDefault | Backend/internal/config/config.go:54-60 | the default is returned only when the variable is unset or empty; a non-empty value is never replaced |
| Config.LoadConfig | Backend/internal/config/config.go:37-52 | a `.env` load error is returned unchanged with no config; otherwise each of the seven fields is its variable or its fixed default |
| Config.EmptyEnvironmentDefaults | Backend/internal/config/config.go:43-68 | in an empty environment every field is its default ("localhost", "vomo_admin", ...), and the port reads as 5432 |
| Config.GetDBPortInt | Backend/internal/config/config.go:62-68 | a port written as an optional sign and decimal digits whose value fits a 64-bit int reads as that signed value; any other text, or a value out of range, reads as 5432; the result always fits a 64-bit int |
| Config.DecimalPortRoundTrip | Backend/internal/config/config.go:62-68 | a `DB_PORT` holding the decimal digits of a port number survives `LoadConfig` and reads back through `GetDBPortInt` as that number |
| Config.PortFallbacks | Backend/internal/config/config.go:62-68 | "" and "54 32" read as 5432; "-1" is kept as -1 |
| Config.GetServerPort | Backend/internal/config/config.go:70-73 | ":" followed by SERVER_PORT when it is set and non-empty, else ":8080"; read from the environment, not from the config |
| Server.TemplateHasNoDollar | Frontend/server.js:9-13 | the script template and the `</head>` pattern contain no `$`, so only the URL can carry a replacement pattern |
| Server.AssignmentInScript | Frontend/server.js:9-13 | any text containing the script block contains `window.API_URL = '<url>';` verbatim |
| Server.ExpandNoDollar | Frontend/server.js:14 | a replacement string without `$` is inserted by `String.prototype.replace` exactly as written |
| Server.InjectConfig | Frontend/server.js:8-15 | an HTML text without `</head>` comes back unchanged |
| Server.InjectBeforeFirstHead | Frontend/server.js:8-15 | for a URL without `$`, the result is the HTML with the script inserted right before the FIRST `</head>`; all text before and after that point is kept |
| Server.InjectAssignsApiUrl | Frontend/server.js:8-15 | for a URL without `$`, the result assigns exactly that URL to `window.API_URL` |
| Server.InjectTwiceGrowsTwice | Frontend/server.js:8-15 | injection grows the page by exactly one script block and keeps a `</head>`, so injecting twice adds two blocks (the function is not idempotent) |
| Server.ExpandAmpersand | Frontend/server.js:14 | `$&` in a replacement expands to the matched text |
| Server.DollarPatternInUrl | Frontend/server.js:11-14 | a URL containing `$&` is not injected verbatim: the pattern is replaced by the matched `</head>` |
| Server.ExpandConcat | Frontend/server.js:14 | text without `$` in front of a replacement passes through unchanged, so expansion splits there |
| RouteHandler.CleanPath | Frontend/assets/js/route-handler.js:17-18 | the cleaned path is "/" exactly when nothing but slashes was given; otherwise it is non-empty, has no slash at either end, and is a piece of the input |
| RouteHandler.CleanPathIdempotent | Frontend/assets/js/route-handler.js:17-18 | cleaning a cleaned path changes nothing |
| RouteHandler.LoaderSeesTrimmedPath | Frontend/assets/js/route-handler.js:17-26 | for an href without `#`, the content loader's own normalisation of the cleaned path gives the href with its boundary slashes trimmed, so the "/" set for an empty path reaches the loader as "" |
| RouteHandler.Router.HandleRoute | Frontend/assets/js/route-handler.js:15-27 | the cleaned path is pushed to the history only when `addToHistory` holds, and is always passed to the loader |
| RouteHandler.Router.OnNavClick | Frontend/assets/js/route-handler.js:3-7 | a click on a nav link prevents the default navigation and routes its href with a history entry |
| RouteHandler.Router.OnPopState | Frontend/assets/js/route-handler.js:10-12 | back/forward routes the current pathname without a new history entry |
| ContentLoader.BeforeHash | Frontend/assets/js/content-loader.js:5 | the result is the longest prefix without `#`: a prefix of the path that is followed by `#` when it is shorter |
| ContentLoader.NormalizePath | Frontend/assets/js/content-loader.js:5-6 | the normalised path has no `#` and no slash at either end, and is a piece of the text before the first `#` |
| ContentLoader.NormalizePathIdempotent | Frontend/assets/js/content-loader.js:5-6 | normalising twice is normalising once |
| ContentLoader.NormalizedNeverSlash | Frontend/assets/js/content-loader.js:6-25 | a normalised path is never "/", so the `case '/'` label cannot be reached |
| ContentLoader.NormalizeDropsFragment | Frontend/assets/js/content-loader.js:5-6 | "/menu#foo/" normalises to "menu" |
| ContentLoader.NormalizeDropsSlashes | Frontend/assets/js/content-loader.js:6 | "/menu/" and "menu" both normalise to "menu" |
| ContentLoader.PreOrder | Frontend/assets/js/content-loader.js:71-82 | the depth-first order of the menu forest: at least as long as the top level and holding every top-level entry |
| ContentLoader.FindMenuByPath | Frontend/assets/js/content-loader.js:71-82 | an entry that is returned has a non-empty url equal to the path or to "/" + path |
| ContentLoader.FindMenuByPathIsFirstInPreOrder | Frontend/assets/js/content-loader.js:71-82 | the search returns the first matching entry in depth-first pre-order, and null exactly when no entry matches |
| ContentLoader.EmptyUrlNeverMatches | Frontend/assets/js/content-loader.js:73 | an entry with an empty url is never found (the `menu.url &&` guard) |
| ContentLoader.MatchesEmptyPath | Frontend/assets/js/content-loader.js:73 | the empty path is answered by exactly the entries whose url is "/" |
| ContentLoader.FindParentMenu | Frontend/assets/js/content-loader.js:97-108 | a returned entry has a direct child with the id |
| ContentLoader.FindParentMenuIsFirstInPreOrder | Frontend/assets/js/content-loader.js:97-108 | the search returns the first entry in pre-order that has the id among its direct children |
| ContentLoader.PreOrderIds | Frontend/assets/js/content-loader.js:97-108 | the ids in pre-order are, as a multiset, the top-level ids plus the nested ids |
| ContentLoader.ParentOnlyForNestedIds | Frontend/assets/js/content-loader.js:97-108 | a parent is found only for an id held below the top level |
| ContentLoader.NoParentAtRootOrAbsent | Frontend/assets/js/content-loader.js:89-108 | an absent id, or a top-level id when ids are unique, has no parent, so the breadcrumb shows "Home" |
| ContentLoader.ComponentFile | Frontend/assets/js/content-loader.js:63 | the fragment file is "components" + path + ".html" |
| ContentLoader.Dispatch | Frontend/assets/js/content-loader.js:13-35 | the menu grid is loaded exactly for "menu" with a menu entry found; the dashboard exactly for "" or "/" with an entry found; every other case loads `components/<path>.html` |
| ContentLoader.DashboardIffRootEntry | Frontend/assets/js/content-loader.js:5-25 | after normalisation the dashboard is shown exactly when the raw path normalises to "" and some entry of the forest has url "/" (also line 73) |
| ContentLoader.Without | Frontend/assets/js/content-loader.js:49 | removing the menu script tags leaves none of them and every other script as it was |
| ContentLoader.Loader.UpdatePageHeader | Frontend/assets/js/content-loader.js:84-95 | the title and the last breadcrumb are the entry's name; the parent breadcrumb is the parent's name or "Home"; the stats panel is visible exactly when the entry's url is "/" |
| ContentLoader.Loader.LoadDashboard | Frontend/assets/js/content-loader.js:110-113 | the stats panel is shown and the dashboard fragment is loaded when the fetch succeeds |
| ContentLoader.Loader.LoadMenuGrid | Frontend/assets/js/content-loader.js:38-60 | the previous menu page's grid is disposed and the slot emptied; exactly one menu script tag remains; a script error shows the alert; a loaded script with DevExtreme present fills the slot with a new menu page, which has a grid exactly when the menu fragment is shown (also menu.js lines 284-287) |
| ContentLoader.Loader.LoadDefaultContent | Frontend/assets/js/content-loader.js:62-69 | the component fragment is loaded, or the "Content not found" alert is shown on error |
| ContentLoader.Loader.LoadContent | Frontend/assets/js/content-loader.js:3-36 | the header changes only when an entry answers for the normalised path, and the stats panel then shows exactly when that entry's url is "/" unless the dashboard shows it; the content, the menu-page slot, the disposed grids and the body scripts follow `Dispatch` and the loader it picks |
| MenuView.GetMenuIcon | Frontend/assets/js/menu.js:1-12 | a key of the table's own six entries maps to its name, which is non-empty; any other key that is not an inherited `Object.prototype` member is returned as it is |
| MenuView.KnownIcons | Frontend/assets/js/menu.js:1-8 | the six keys of the table and their names |
| MenuView.GetMenuIconIdempotent | Frontend/assets/js/menu.js:1-12 | no icon name is itself a key, so mapping twice is mapping once |
| MenuView.IsMenuActiveBounds | Frontend/assets/js/menu.js:14-17 | `IsMenuActive` holds exactly when the pathname ends with the url; an empty url is active everywhere; a url longer than the pathname never is |
| MenuView.NavItems | Frontend/assets/js/menu.js:19-31 | one nav item per top-level entry |
| MenuView.NavItemsAt | Frontend/assets/js/menu.js:21-28 | item k links to entry k's url with entry k's name; children play no part |
| MenuView.NavItemsConcat | Frontend/assets/js/menu.js:20 | rendering two lists one after the other renders their concatenation |
| MenuView.RenderMenu | Frontend/assets/js/menu.js:19-31 | the container gains exactly the items of the entries, in `forEach` order, after what it had |
| Gin.Context.AbortWith | Backend/internal/middleware/auth.go:19-20 | `c.JSON(status, gin.H{"error": ...})` followed by `c.Abort()`: the reply is set and the chain is aborted; nothing else changes |
| AuthMiddleware.BearerToken | Backend/internal/middleware/auth.go:25-30 | a token is accepted only from a header that splits on " " into exactly two parts, so it has no space in it |
| AuthMiddleware.BearerTokenIff | Backend/internal/middleware/auth.go:25-30 | the token is t exactly when the header is "Bearer " + t and t has no space |
| AuthMiddleware.BearerTokenAccepts | Backend/internal/middleware/auth.go:25-30 | "Bearer abc" gives "abc"; "Bearer " gives the empty token, which then goes to validation |
| AuthMiddleware.BearerTokenIsCaseSensitive | Backend/internal/middleware/auth.go:26 | "bearer abc" is refused |
| AuthMiddleware.BearerTokenRefusesDoubleSpace | Backend/internal/middleware/auth.go:25-26 | "Bearer  abc" (two spaces) splits into three parts and is refused |
| AuthMiddleware.Authenticate | Backend/internal/middleware/auth.go:15-69 | the checks run in order: an empty header, then the format, then the token, then the user id, each aborting with 401 and its own message and setting nothing; then userID, username and tenantID are set; a permission load failure aborts with 500 and keeps them; otherwise userPermissions is set and the chain continues |
| TenantMiddleware.CheckTenant | Backend/internal/middleware/tenant.go:10-32 | the chain continues exactly when the header parses with `strconv.Atoi`; an empty header gives 400 "Tenant ID is required"; any other unparsable one gives 400 "Invalid tenant ID format" |
| TenantMiddleware.TenantExamples | Backend/internal/middleware/tenant.go:15-27 | "7" and "-3" are accepted; "abc", " 7" and "1.5" are refused as badly formatted |
| Search.First | Backend/internal/infrastructure/postgres/user_repository.go:22-28 | the index of the first row whose key is the value: the row holds it and no earlier row does; none exactly when no row holds it (the id and email lookups of the user, office, zone and menu tables) |
| Search.FirstElement | Frontend/assets/js/pages/employee.js:310 | `find`: a row of the grid with that key, none exactly when no row has it (also division.js:285) |
| Search.FirstIsEarliestMatch | Backend/internal/infrastructure/postgres/office_repository.go:26-36 | a row that holds the key with no earlier row holding it is the one the lookup returns |
| Search.FirstAppend | Backend/internal/infrastructure/postgres/office_repository.go:26-36 | a lookup over two tables one after the other finds the first table's match when it has one, and otherwise the second table's, shifted past the first |
| Search.SameKeysSameFirst | Backend/internal/infrastructure/postgres/office_repository.go:50-56 | two tables whose rows carry the same keys row by row answer every lookup with the same index: a write that leaves the key column alone changes no lookup |
| Search.FirstOfUniqueKey | Backend/internal/infrastructure/postgres/user_repository.go:22-28 | when no two rows share a key, the lookup of a row's key finds that very row |
| UserService.DeleteRows | Backend/internal/infrastructure/postgres/user_repository.go:42-44 | the table keeps exactly the rows whose id differs |
| UserService.UserService.CreateUser | Backend/internal/application/user_service.go:19-37 | a hash or repository failure writes nothing; otherwise the new user with the hashed password and the given role is appended, and its stored hash accepts exactly the given password |
| UserService.UserService.GetUserById | Backend/internal/application/user_service.go:39-41 | the first user with that id, or NotFound exactly when none has it |
| UserService.UserService.ListUsers | Backend/internal/application/user_service.go:47-55 | a page below 1 becomes 1 and a size below 1 becomes 10; valid values pass unchanged |
| UserService.UserService.UpdateUser | Backend/internal/application/user_service.go:57-70 | a missing user gives NotFound and writes nothing; otherwise only that row's username and email change, and a failed save writes nothing |
| UserService.UserService.DeleteUser | Backend/internal/application/user_service.go:72-74 | the rows with that id are removed, and an id with no row is not an error |
| UserService.UserService.UpdatePassword | Backend/internal/application/user_service.go:76-95 | succeeds exactly when the user exists, the old password is accepted and hashing and saving succeed; then only that user's hash changes and it accepts exactly the new password; a wrong old password gives "invalid old password"; every failure writes nothing |
| UserService.UserService.ValidateCredentials | Backend/internal/application/user_service.go:97-108 | succeeds exactly when the first user with that email has a hash accepting the password; an unknown email and a wrong password give the same "invalid credentials" error |
| UserHandler.ResponseShowsPublicFields | Backend/internal/handlers/models.go:26-33 | two users give the same response exactly when their id, username, email and role id agree: the response reveals those four fields and no other |
| UserHandler.ResponseHidesSecrets | Backend/internal/handlers/models.go:15-33 | the response does not depend on the password hash or the tenant, so neither leaks |
| UserHandler.ToUserResponsesConcat | Backend/internal/handlers/models.go:35-41 | converting two lists of users one after the other gives the conversion of their concatenation: the list conversion is element-wise and keeps the order |
| UserHandler.QueryOrDefault | Backend/internal/handlers/user_handler.go:82-91 | the query's value is used exactly when `strconv.Atoi` accepts it and it is positive, otherwise the default; a positive default gives a positive result |
| UserHandler.QueryExamples | Backend/internal/handlers/user_handler.go:80-91 | "" and "x" keep the default, "0" and "-4" too, "3" and "+3" give 3 |
| UserHandler.GetUsers | Backend/internal/handlers/user_handler.go:77-101 | the service is asked for the parsed page and size; a listing failure gives 500 with its text, otherwise 200 with the users' responses |
| UserHandler.GetUser | Backend/internal/handlers/user_handler.go:51-67 | a bad uuid gives 400 "Invalid ID format" without a lookup; a missing user 404 "User not found"; otherwise 200 with that user's response |
| UserHandler.UpdateUser | Backend/internal/handlers/user_handler.go:113-135 | a bad uuid or body gives 400 and writes nothing; a missing user or a failed save gives 400 with the service's error text; otherwise only the username and email change and 200 carries the updated user |
| UserHandler.DeleteUser | Backend/internal/handlers/user_handler.go:145-160 | a bad uuid gives 400; a failed delete 404 "User not found"; otherwise 204 and the rows with that id are gone |
| UserHandler.CreateUser | Backend/internal/handlers/user_handler.go:25-41 | a bad body, a hash failure or a repository failure gives 400 and writes nothing; otherwise 201 with the new user's response, the user appended with the hashed password |
| MapOrder.EnumeratesMembers | Backend/internal/handlers/auth_handler.go:72 | an order that enumerates a map's keys holds exactly those keys |
| MapOrder.EnumeratesDistinct | Backend/internal/handlers/auth_handler.go:72 | such an order visits no key twice |
| MenuHandler.ToMenuResponse | Backend/internal/handlers/menu_handler.go:21-38 | the response keeps id, name, url, icon and parent; an empty children list becomes an absent one, otherwise one converted child per child |
| MenuHandler.FromMenuResponse | Backend/internal/handlers/menu_handler.go:12-19 | the reading of a response back as a menu keeps its number of children |
| MenuHandler.ToMenuResponseRoundTrip | Backend/internal/handlers/menu_handler.go:21-38 | converting a menu and reading it back gives the menu again, so the conversion loses nothing |
| MenuHandler.ToMenuResponseKeepsDepth | Backend/internal/handlers/menu_handler.go:30-35 | the response tree is exactly as deep as the menu tree |
| MenuHandler.ChildrenKeepDepth | Backend/internal/handlers/menu_handler.go:32-34 | each suffix of the converted children is as deep as the same suffix of the children |
| MenuHandler.ToMenuResponsesRoundTrip | Backend/internal/handlers/menu_handler.go:64-67 | every response of a list reads back as the menu at its position, so two different lists of menus never give the same reply (also lines 96-99) |
| MenuHandler.GetMenusByRole | Backend/internal/handlers/menu_handler.go:48-71 | the service is called exactly when `strconv.Atoi` accepts the query, and with its value; otherwise 400 "Invalid role ID"; a service error gives 500 with its text; otherwise 200 with one response per menu |
| MenuHandler.GetMenusByUser | Backend/internal/handlers/menu_handler.go:81-103 | an empty user id gives 400 "User ID is required" with no service call; otherwise the service is called with it; an error gives 500 with its text, success 200 with one response per menu |
| MenuHandler.MenuFailuresAreErrorReplies | Backend/internal/handlers/menu_handler.go:48-103 | on both menu endpoints a reply carries the menus as JSON exactly when its status is 200 and the service answered; every other reply is an `{"error": ...}` body, 400 exactly when the service was not asked and 500 exactly when it failed |
| MenuHandler.ListRepliesPreserveMenus | Backend/internal/handlers/menu_handler.go:96-101 | each response of a successful reply reads back as the menu at the same position |
| MenuHandler.RoleRepliesPreserveMenus | Backend/internal/handlers/menu_handler.go:57-70 | each response of a successful role reply reads back as the service's menu at the same position |
| MenuHandler.RoleIdExamples | Backend/internal/handlers/menu_handler.go:50-55 | "12" calls the service with 12; "12a" and "" are refused |
| AuthHandler.MenuIds | Backend/internal/handlers/auth_handler.go:65-69 | every menu's id is a key of the map |
| AuthHandler.FirstPass | Backend/internal/handlers/auth_handler.go:61-69 | the map's keys are exactly the menus' ids and each entry sits under its own id |
| AuthHandler.FirstPassKeepsLast | Backend/internal/handlers/auth_handler.go:65-69 | of several menus with one id, the last one is the one the map keeps |
| AuthHandler.AppendChild | Backend/internal/handlers/auth_handler.go:75-77 | the parent keeps its own fields and its children gain the child at the end |
| AuthHandler.BuildHierarchy | Backend/internal/handlers/auth_handler.go:61-82 | the loops produce the roots of the range loop run over the map in the given order, which is `Hierarchy` of the loaded menus |
| AuthHandler.LoadedIsGrown | Backend/internal/handlers/auth_handler.go:65-69 | every response of the first pass is grown from itself |
| AuthHandler.AppendKeepsGrown | Backend/internal/handlers/auth_handler.go:74-77 | appending a grown child that names the parent keeps the parent grown |
| AuthHandler.StepKeepsInvariant | Backend/internal/handlers/auth_handler.go:72-82 | one iteration (`Step`) keeps the map's keys, keeps every value grown and appends to the roots exactly the visited parentless key |
| AuthHandler.RunKeepsInvariant | Backend/internal/handlers/auth_handler.go:72-82 | the invariant holds after the range loop (`Run`) has visited any sequence of loaded keys |
| AuthHandler.ParentlessKeysCount | Backend/internal/handlers/auth_handler.go:79-81 | a key occurs among the parentless keys as often as in the order when its menu has no parent, and never otherwise |
| AuthHandler.LoginRootsAreParentless | Backend/internal/handlers/auth_handler.go:72-87 | every root of the login reply has no parent and is grown from the first pass |
| AuthHandler.LoginRootsOncePerParentlessMenu | Backend/internal/handlers/auth_handler.go:72-87 | each parentless menu's id is a root exactly once, and no other id is a root |
| AuthHandler.LoginRootIdsIgnoreOrder | Backend/internal/handlers/auth_handler.go:72 | the root ids are the same multiset whatever order the map is ranged in |
| AuthHandler.GrownRootHoldsNoOrphan | Backend/internal/handlers/auth_handler.go:73-78 | a grown root is not a menu whose parent is missing and holds none among its appended children |
| AuthHandler.LoginDropsOrphans | Backend/internal/handlers/auth_handler.go:73-78 | a menu whose parent is not among the loaded menus is neither a root nor appended to a root |
| AuthHandler.ExampleIds | Backend/internal/handlers/auth_handler.go:65-69 | the three example menus have ids 1, 2 and 3 |
| AuthHandler.ExampleOrders | Backend/internal/handlers/auth_handler.go:72 | [3, 2, 1] and [2, 3, 1] are both possible range orders of the example |
| AuthHandler.ExampleFirstPass | Backend/internal/handlers/auth_handler.go:65-69 | the example's first pass maps each id to its menu's response |
| AuthHandler.ExampleVisitCBA | Backend/internal/handlers/auth_handler.go:72-82 | visiting C, B, A nests the grandchild C under B under A |
| AuthHandler.ExampleVisitBCA | Backend/internal/handlers/auth_handler.go:72-82 | visiting B, C, A copies B into A before C is appended to B, so A's child B has no children |
| AuthHandler.LoginChildrenDependOnOrder | Backend/internal/handlers/auth_handler.go:72-82 | for example input in which a top-level menu's child is itself loaded with the top-level menus, the root ids agree for the two orders, yet the hierarchies differ: on such input the loop's result depends on Go's map order |
| AuthHandler.Login | Backend/internal/handlers/auth_handler.go:32-90 | a bad body gives 400; refused credentials give 401 "Invalid credentials"; a token failure 500 "Failed to generate token"; a menu failure 500 "Failed to retrieve menus"; otherwise 200 with the token, the user's response and the hierarchy of the role's menus |
| AuthHandler.RefreshToken | Backend/internal/handlers/auth_handler.go:92-136 | an empty header gives 401 "Refresh token is required"; otherwise the header less a leading "Bearer " is validated; then an invalid token, an unknown user and each generation failure give their own status and message; success gives both tokens and the type "Bearer" |
| AuthHandler.RefreshHeaderExamples | Backend/internal/handlers/auth_handler.go:100 | `TrimPrefix` removes one "Bearer " at most, is case-sensitive, and leaves a header without it as it was |
| MenuService.IdSet | Backend/internal/application/menu_service.go:99-103 | every row's id is in the set |
| MenuService.IdSetMembership | Backend/internal/application/menu_service.go:99-103 | an id is in the set exactly when some row has it |
| MenuService.NodeMap | Backend/internal/application/menu_service.go:95-103 | the map's keys are the rows' ids and each node sits under its own id |
| MenuService.BuildMenuTree | Backend/internal/application/menu_service.go:94-124 | the forest stores each id's last row, a children list for every stored id holding the ids of the rows naming it as parent in row order, and the parentless rows' ids as roots in row order |
| MenuService.PrefixStep | Backend/internal/application/menu_service.go:99-115 | one more row updates the node map at its id and adds its id to the roots exactly when it has no parent |
| MenuService.AttachStep | Backend/internal/application/menu_service.go:107-111 | one more row appends its id to its parent's children exactly when that parent is loaded |
| MenuService.ChildIdsStep | Backend/internal/application/menu_service.go:107-111 | a parent's child ids grow by a row's id exactly when the row names that parent |
| MenuService.RootIdsMembership | Backend/internal/application/menu_service.go:112-114 | an id is a root exactly when some row with that id has no parent |
| MenuService.ChildIdsMembership | Backend/internal/application/menu_service.go:107-111 | an id is a child of p exactly when some row with that id names p as parent |
| MenuService.RootIdsAreParentlessRows | Backend/internal/application/menu_service.go:112-121 | the roots are the parentless rows, in row order |
| MenuService.NodeMapOfUnique | Backend/internal/application/menu_service.go:99-103 | with unique ids, each row is the node stored for its id |
| MenuService.RootNodesHaveNoParent | Backend/internal/application/menu_service.go:112-114 | with unique ids, every root is stored and has no parent |
| MenuService.OrphanAppearsNowhere | Backend/internal/application/menu_service.go:107-114 | a row whose parent is not loaded is neither a root nor anyone's child, so the tree drops it |
| MenuService.ChildIsAttached | Backend/internal/application/menu_service.go:107-111 | a row whose parent is loaded is among that parent's children |
| MenuService.RemoveId | Backend/internal/application/menu_service.go:133 | the table keeps exactly the rows whose id differs |
| MenuService.MenuService.CreateMenu | Backend/internal/application/menu_service.go:46-64 | a repository failure writes nothing; otherwise the new row is appended and one create entry with no old value is logged; an audit failure is reported although the row stays |
| MenuService.MenuService.UpdateMenu | Backend/internal/application/menu_service.go:66-91 | a missing id gives NotFound and a failed save writes nothing; otherwise that row takes the new name, url, icon and parent and an update entry logs old and new values; an audit failure is reported although the row changed |
| MenuService.MenuService.Delete | Backend/internal/application/menu_service.go:126-139 | a missing id gives NotFound; a failed delete writes nothing; otherwise the rows with that id go and a delete entry logs the old row |
| MenuService.RemoveIdKeepsUnique | Backend/internal/application/menu_service.go:133 | deleting keeps the ids unique |
| MenuService.DeleteRemovesId | Backend/internal/application/menu_service.go:133 | after deleting, no row has that id |
| Domain.OfficesIn | Backend/internal/infrastructure/postgres/office_repository.go:65-75 | exactly the offices of that zone, taken from the table |
| Domain.SetZoneKeepsTable | Backend/internal/infrastructure/postgres/office_repository.go:50-56 | the intended zone write (`SetZone`, a nil zone included): every lookup by id finds the same row, the primary key is kept, nothing changes when no row has the id, writing twice is writing once, and writing back the old zone restores the table; what gorm executes is `UpdatesZone`, which skips a nil zone |
| Domain.UpdatesZone | Backend/internal/infrastructure/postgres/office_repository.go:50-56 | gorm's `Updates` with a struct writes a zone only when it is not nil; a nil zone leaves every row as it was |
| Domain.UpdatesRow | Backend/internal/infrastructure/postgres/office_repository.go:50-56 | gorm's `Updates` with a struct: the row keeps its id, takes each string field of the office that is not empty and its zone when not nil, and keeps everything else |
| Domain.UpdatesRowAllSet | Backend/internal/infrastructure/postgres/office_repository.go:50-56 | an office with every field set replaces its row outright |
| Domain.UpdatesRowEmptyAndTwice | Backend/internal/infrastructure/postgres/office_repository.go:50-56 | an office with no field set writes nothing, and writing the same office twice is writing it once |
| Domain.UpdatesZoneIsUpdatesRow | Backend/internal/infrastructure/postgres/office_repository.go:50-56 | a zone-only update of the row with that id is `UpdatesRow` with an office holding nothing but the zone |
| ZoneService.RegionOfListedZones | Backend/internal/application/zone_service.go:39-49 | every zone a region lists shows that region beside it, and a zone without a region shows none, whatever the region table holds |
| ZoneService.RegionIds | Backend/internal/application/zone_service.go:59-65 | the set of region ids is exactly the ids named by some zone |
| ZoneService.ZonesOfRegion | Backend/internal/infrastructure/postgres/zone_repository.go:59 | exactly the zones that name that region |
| ZoneService.AssignStopsAtFirstFailure | Backend/internal/application/zone_service.go:131-140 | once an office lookup or write has failed, the later ids change nothing |
| ZoneService.AssignedTouchesOnlyListed | Backend/internal/application/zone_service.go:131-140 | an office either keeps its row or is a listed one moved into the zone, even after a failure |
| ZoneService.AssignedKeepsIds | Backend/internal/application/zone_service.go:131-140 | assigning keeps the table's rows and their ids |
| ZoneService.AssignedFindsAll | Backend/internal/application/zone_service.go:132-135 | a successful assignment found every listed office |
| ZoneService.AssignedSuccess | Backend/internal/application/zone_service.go:131-140 | after a successful run of the assignment loop (`Assigned`) exactly the listed offices are in the zone and nothing else changed |
| ZoneService.AssignedOfficesJoinZone | Backend/internal/application/zone_service.go:131-148 | after a successful assignment every listed office is among the zone's offices that the refreshed zone loads |
| ZoneService.AssignStep | Backend/internal/application/zone_service.go:131-140 | one iteration: stop after a failure, fail with the lookup's error, fail with the write's error, or move that office into the zone |
| ZoneService.IdsOf | Backend/internal/application/zone_service.go:165-166 | the set holds exactly the ids of the rows |
| ZoneService.RemoveStopsAtFirstFailure | Backend/internal/application/zone_service.go:165-172 | once a write has failed, the later offices change nothing |
| ZoneService.RemovedTouchesOnlyListed | Backend/internal/application/zone_service.go:165-172 | an office either keeps its row or is a listed office of the snapshot that leaves its zone |
| ZoneService.RemovedSuccess | Backend/internal/application/zone_service.go:165-172 | after a successful run of the intended removal loop (`Removed`) exactly the listed offices of the snapshot have no zone and nothing else changed |
| ZoneService.InZoneIds | Backend/internal/application/zone_service.go:153 | with unique ids, an office is in the zone's snapshot exactly when its row names the zone |
| ZoneService.RemoveOfficesExact | Backend/internal/application/zone_service.go:151-175 | after a successful removal an office has lost its zone exactly when it was in that zone and listed |
| ZoneService.RemoveStep | Backend/internal/application/zone_service.go:165-172 | one iteration: skip after a failure or an unlisted office, fail on a failed write, or clear that office's zone |
| ZoneService.RemovedAsWrittenChangesNothing | Backend/internal/application/zone_service.go:165-172 | the removal as gorm executes it reports the intended outcome but leaves every row unchanged |
| ZoneService.RemoveOfficesAsWrittenKeepsZone | Backend/internal/application/zone_service.go:165-172 | a concrete office that stays in its zone as written and leaves it as intended |
| ZoneService.IdSetConcat | Backend/internal/application/zone_service.go:159-162 | the id set of two lists together is the union of their id sets, and repeating a list adds no id |
| ZoneService.ZoneService.FindByID | Backend/internal/application/zone_service.go:33-50 | NotFound exactly when no zone has the id; otherwise the zone with its offices, and its region when that lookup succeeds, none otherwise |
| ZoneService.ZoneService.CollectRegionIds | Backend/internal/application/zone_service.go:59-65 | the loop collects exactly the region ids the zones name |
| ZoneService.ZoneService.FetchRegions | Backend/internal/application/zone_service.go:67-76 | each collected id is looked up once in range order, and the map holds exactly the ids whose lookup succeeded |
| ZoneService.ZoneService.AlignRegions | Backend/internal/application/zone_service.go:78-84 | one entry per zone, in zone order: its region, or nil when it names none or its lookup failed |
| ZoneService.ZoneService.FindAll | Backend/internal/application/zone_service.go:53-87 | a listing failure gives the error and looks nothing up; otherwise every zone and, at the same position, its region, with each named region looked up exactly once |
| ZoneService.ZoneService.FindByRegionID | Backend/internal/application/zone_service.go:100-121 | the zones of that region, each paired with the region when it exists and with nil otherwise |
| ZoneService.ZoneService.AssignOffices | Backend/internal/application/zone_service.go:123-149 | a missing zone gives NotFound and writes nothing; otherwise the offices are assigned in list order up to the first failure, whose error is returned; success returns the refreshed zone and its region |
| ZoneService.ZoneService.RemoveOffices | Backend/internal/application/zone_service.go:151-175 | the intended behaviour: a failed read gives the error and writes nothing; otherwise the zone's listed offices lose their zone in snapshot order up to the first failed write, whose error is returned; as gorm executes the write nothing changes (`RemovedAsWrittenChangesNothing`) |
| OfficeService.CodeHolder | Backend/internal/application/office_service.go:27 | an existing office is seen exactly when the lookup succeeds and some office has the code; a failed lookup counts as none (also line 57) |
| OfficeService.EmailHolder | Backend/internal/application/office_service.go:32 | an existing office is seen exactly when the lookup succeeds and some office has the email; a failed lookup counts as none (also line 62) |
| OfficeService.RemoveOffice | Backend/internal/infrastructure/postgres/office_repository.go:58-63 | the table keeps exactly the offices whose id differs |
| OfficeService.AppendKeepsDistinctKeys | Backend/internal/application/office_service.go:25-38 | adding an office whose code and email are both unused keeps codes and emails distinct |
| OfficeService.ReplaceKeepsDistinctKeys | Backend/internal/application/office_service.go:55-72 | writing the non-empty fields of an office over its row keeps codes and emails distinct when each key it sets is unused or already its own |
| OfficeService.RemoveKeepsKeys | Backend/internal/application/office_service.go:81-89 | deleting keeps codes and emails distinct |
| OfficeService.KeysDifferFromHead | Backend/internal/domain/office/entity.go:14-17 | in a table with distinct keys the first office shares its code and email with no other |
| OfficeService.OfficeService.Create | Backend/internal/application/office_service.go:25-42 | a code seen in use gives "office code already exists", then an email seen in use "office email already exists", a failed create its error, each writing nothing; otherwise the office is appended and a create entry logged; with both lookups working, codes and emails stay distinct |
| OfficeService.OfficeService.Update | Backend/internal/application/office_service.go:55-78 | a code or email held by another office is refused, in that order; a missing office or a failed write writes nothing; otherwise the row takes every non-empty field of the office and keeps the rest (gorm's `Updates`), and an update entry logs the stored row as old and the office as passed in as new; with both lookups working, codes and emails stay distinct |
| OfficeService.OfficeService.Delete | Backend/internal/application/office_service.go:81-94 | a missing office or a failed delete writes nothing; otherwise its rows go and a delete entry logs the old office |
| OfficeService.RemoveKeepsIds | Backend/internal/application/office_service.go:81-89 | deleting keeps the ids unique |
| Text.ToLowerIdempotentAndIgnoresCase | Frontend/assets/js/pages/division.js:302-303 | lowering an already lowered text changes nothing, and raising a text first makes no difference to its lowered form (also line 55) |
| Text.IndexOf | Frontend/assets/js/content-loader.js:5 | the position of the first occurrence of the character, or the length when there is none |
| Text.Find | Frontend/assets/js/pages/division.js:302 | the first position where the substring occurs, none exactly when it does not occur (`includes`) |
| Text.TrimSlashes | Frontend/assets/js/content-loader.js:6 | `replace(/^\/+\|\/+$/g, '')` leaves no leading or trailing slash and a substring of the input |
| Text.TrimSlashesOfSlashFree | Frontend/assets/js/route-handler.js:17 | a path without a leading or trailing slash is left as it is |
| Text.TrimSlashesIdempotent | Frontend/assets/js/content-loader.js:6 | trimming twice is trimming once |
| Text.TrimPrefix | Backend/internal/handlers/auth_handler.go:100 | `strings.TrimPrefix` removes the prefix exactly when the string starts with it |
| Text.Split | Backend/internal/middleware/auth.go:25 | `strings.Split` gives at least one part and no part holds the separator |
| Text.SplitSingle | Backend/internal/middleware/auth.go:25-26 | a string splits into one part exactly when it lacks the separator |
| Text.SplitTwo | Backend/internal/middleware/auth.go:25-26 | a string splits into exactly [a, b] when it is a, the separator, b, with neither part holding it |
| Text.Atoi | Backend/internal/middleware/tenant.go:22 | `strconv.Atoi` accepts only an optional sign followed by decimal digits; such text parses exactly when its signed decimal value lies within the 64-bit range, and to that value |
| JsSet.Add | Frontend/assets/js/pages/division.js:339 | `Set.add`: the members gain x; a present value keeps its place, a new one goes last; no value twice |
| JsSet.Delete | Frontend/assets/js/pages/division.js:341 | `Set.delete`: the members lose x and the rest keep their order |
| JsSet.AddAll | Frontend/assets/js/pages/role.js:80-82 | adding a list: the members are the old ones and the list's |
| JsSet.DeleteAll | Frontend/assets/js/pages/role.js:83-85 | deleting a list: the members are the old ones not in the list |
| JsSet.FromSeq | Frontend/assets/js/pages/division.js:288 | `new Set(list)`: exactly the list's values, each once |
| JsSet.AddAllConcat | Frontend/assets/js/pages/role.js:400-405 | adding two lists in turn is adding their concatenation |
| JsSet.FromSeqOfDistinct | Frontend/assets/js/pages/division.js:288 | a list without duplicates makes a set in the same order |
| JsSet.DeleteUndoesAdd | Frontend/assets/js/pages/division.js:339-341 | checking then unchecking a new value restores the set |
| JsSet.SizeOfDistinct | Frontend/assets/js/pages/role.js:385 | a list without duplicates has as many members as elements |
| JsSet.SameMembersSameSize | Frontend/assets/js/pages/role.js:385-386 | two duplicate-free lists with the same members have the same length |
| Pages.SearchFilter | Frontend/assets/js/pages/division.js:55 | the stored filter is the typed text lowered: same length and no upper-case letter |
| Pages.SearchFilterIgnoresCase | Frontend/assets/js/pages/division.js:55 | typing the same text in upper case gives the same filter |
| Pages.SearchFilterIdempotent | Frontend/assets/js/pages/division.js:55 | lowering an already stored filter leaves it unchanged |
| Pages.FilterItems | Frontend/assets/js/pages/division.js:301-304 | an entry is shown exactly when its name, or its second line when it has one, contains the filter ignoring case |
| Pages.FilterKeepsMatchingList | Frontend/assets/js/pages/division.js:301-304 | when every entry matches, the list is shown whole and in order |
| Pages.EmptyFilterKeepsAll | Frontend/assets/js/pages/division.js:301-304 | with the empty filter every entry is shown |
| Pages.SelectedIds | Frontend/assets/js/pages/employee.js:342 | a single chosen entry marks exactly its own id |
| Pages.RenderRows | Frontend/assets/js/pages/division.js:316-320 | one row per shown entry, in order, marked selected exactly when its id is in the selection |
| EmployeePage.EmployeePage.RenderDivisions | Frontend/assets/js/pages/employee.js:322-346 | the list shows the divisions matching the filter, in order, the chosen one marked by id; nothing else changes |
| EmployeePage.EmployeePage.LoadDivisions | Frontend/assets/js/pages/employee.js:306-320 | the divisions are fetched; a failure shows "Failed to load divisions" and changes nothing else; otherwise the employee's own division, when its row has one, becomes the chosen one, and the list is rendered |
| EmployeePage.EmployeePage.OnShow | Frontend/assets/js/pages/employee.js:37-43 | the employee from the button is remembered and the divisions are loaded for it |
| EmployeePage.EmployeePage.OnHide | Frontend/assets/js/pages/employee.js:46-51 | the choice, the filter and the list are cleared |
| EmployeePage.EmployeePage.Search | Frontend/assets/js/pages/employee.js:54-57 | the filter becomes the lowered text and the list is rendered again |
| EmployeePage.EmployeePage.Choose | Frontend/assets/js/pages/employee.js:361-363 | a changed radio item becomes the chosen division |
| EmployeePage.EmployeePage.SaveDivision | Frontend/assets/js/pages/employee.js:366-392 | without an employee or a choice, "Please select a division" and no call; otherwise the old division is removed first exactly when the row has one with a non-zero id other than the chosen one (`NeedsRemoval`); a failed call stops with "Failed to assign division"; success assigns, closes the dialog, whose hide handler clears the choice, the filter and the list, reloads the grid and reports it |
| DivisionPage.Missing | Frontend/assets/js/pages/division.js:353-354 | `filter(id => !ys.includes(id))`: never longer than the list it filters |
| DivisionPage.MissingMembers | Frontend/assets/js/pages/division.js:353-354 | an id is kept exactly when it is in the first list and not in the second; a list without duplicates gives one without duplicates, so each id is added or removed once |
| DivisionPage.DiffRebuildsSelection | Frontend/assets/js/pages/division.js:349-364 | the division's ids less the removed ones plus the added ones are exactly the selection, and no id is both added and removed |
| DivisionPage.UnchangedSelectionSendsNothing | Frontend/assets/js/pages/division.js:353-364 | with the selection equal to the division's employees nothing is added or removed, so no call is made |
| DivisionPage.DivisionPage.RenderEmployees | Frontend/assets/js/pages/division.js:297-321 | the list shows the employees matching the filter, in order, each marked when its id is selected; nothing else changes |
| DivisionPage.DivisionPage.LoadEmployees | Frontend/assets/js/pages/division.js:281-295 | the employees are fetched; a failure shows "Failed to load employees" and changes nothing else; otherwise a division with an employee list, even an empty one, replaces the selection by its ids, any other leaves it, and the list is rendered |
| DivisionPage.DivisionPage.OnShow | Frontend/assets/js/pages/division.js:37-43 | the division from the button is remembered and, once loaded, its employees are exactly the selection |
| DivisionPage.DivisionPage.OnHide | Frontend/assets/js/pages/division.js:46-51 | the selection, the filter and the list are cleared |
| DivisionPage.DivisionPage.Search | Frontend/assets/js/pages/division.js:54-57 | the filter becomes the lowered text and the list is rendered again |
| DivisionPage.DivisionPage.Toggle | Frontend/assets/js/pages/division.js:336-343 | the employee is selected exactly when its box is checked and every other id keeps its state |
| DivisionPage.DivisionPage.SaveEmployees | Frontend/assets/js/pages/division.js:346-373 | the additions are sent, when there are any, before the removals, when there are any; a failed call stops with "Failed to assign employees"; success closes the dialog, whose hide handler clears the selection, the filter and the list, reloads and reports it; with no division remembered the save fails as soon as it reads the division's id, which happens when the grid has rows or something is to be added |
| DivisionPage.DivisionPage.SendDiff | Frontend/assets/js/pages/division.js:356-372 | the additions, when there are any, are sent before the removals, when there are any; a failure stops with "Failed to assign employees"; otherwise the dialog closes and the success is reported |
| DivisionPage.DivisionPage.CloseAfterSave | Frontend/assets/js/pages/division.js:366-369 | the dialog closes, its hide handler clearing the selection, the filter and the list when it was shown; the grid is reloaded and the success reported |
| RegionPage.RegionPage.RenderZones | Frontend/assets/js/pages/region.js:279-303 | the list shows the zones matching the filter, in order, each marked when its id is selected; nothing else changes |
| RegionPage.RegionPage.LoadZones | Frontend/assets/js/pages/region.js:269-277 | the zones are fetched and rendered; the selection is never preset from the region; a failure shows "Failed to load zones" |
| RegionPage.RegionPage.OnShow | Frontend/assets/js/pages/region.js:37-43 | the region from the button is remembered and the zones are loaded |
| RegionPage.RegionPage.OnHide | Frontend/assets/js/pages/region.js:46-51 | the selection, the filter and the list are cleared |
| RegionPage.RegionPage.Search | Frontend/assets/js/pages/region.js:54-57 | the filter becomes the lowered text and the list is rendered again |
| RegionPage.RegionPage.Toggle | Frontend/assets/js/pages/region.js:318-325 | the zone is selected exactly when its box is checked and every other id keeps its state |
| RegionPage.RegionPage.SaveZones | Frontend/assets/js/pages/region.js:328-338 | the whole selection, in insertion order, is sent as the region's zones; a failure, or no region remembered, gives "Failed to assign zones"; success closes the dialog, whose hide handler clears the selection, the filter and the list, reloads and reports it |
| RegionPage.SaveTwice | Frontend/assets/js/pages/region.js:328-338 | a selection saved for one region is cleared by the dialog's hide handler, so the next region's save sends no zones (also lines 46-51) |
| OfficePage.OfficePage.Dispose | Frontend/assets/js/pages/office.js:21-32 | the dialog handlers are unbound and the grid is disposed but stays referenced |
| OfficePage.OfficePage.RenderZones | Frontend/assets/js/pages/office.js:330-354 | the list shows the zones matching the filter, in order, exactly the chosen zone's row marked |
| OfficePage.OfficePage.OnShow | Frontend/assets/js/pages/office.js:36-38 | showing the dialog loads and renders the zones; it does not remember the office; a failure shows "Failed to load zones" (also lines 320-328) |
| OfficePage.OfficePage.OnShowFor | Frontend/assets/js/pages/office.js:36-38 | the show handler that also remembers the office named by the button (also lines 184-187) |
| OfficePage.OfficePage.OnHide | Frontend/assets/js/pages/office.js:41-46 | the choice, the filter and the list are cleared |
| OfficePage.OfficePage.Search | Frontend/assets/js/pages/office.js:49-52 | the filter becomes the lowered text and the list is rendered again |
| OfficePage.OfficePage.Choose | Frontend/assets/js/pages/office.js:369-371 | a changed radio item becomes the chosen zone |
| OfficePage.OfficePage.SaveZone | Frontend/assets/js/pages/office.js:374-389 | without a choice, "Please select a zone" and no call; without an office the id read throws and "Failed to assign zone" is shown with no call; otherwise the assignment is sent, and on success the dialog closes, its hide handler clearing the choice, the filter and the list, the awaited reload reports its own failure, and success is reported |
| OfficePage.SaveAfterShowAsWritten | Frontend/assets/js/pages/office.js:374-389 | showing, choosing and saving as the page is written sends only the zone fetch and ends in "Failed to assign zone" (also lines 36-38) |
| OfficePage.SaveAfterShowCorrected | Frontend/assets/js/pages/office.js:374-389 | with the office remembered on show, the save sends the assignment for that office and the chosen zone (also lines 184-187) |
| ProductPage.ReplaceFirst | Frontend/assets/js/pages/product.js:234 | `replace` with a string pattern changes only the first occurrence, and nothing when there is none |
| ProductPage.StatusLabel | Frontend/assets/js/pages/product.js:234 | the status label is as long as the status |
| ProductPage.StatusLabelChars | Frontend/assets/js/pages/product.js:234 | the first underscore becomes a space, every later underscore stays, every other character is raised |
| ProductPage.StatusLabelOutOfStock | Frontend/assets/js/pages/product.js:234 | "out_of_stock" is shown as "OUT OF_STOCK" |
| ProductPage.OutOfStockUpper | Frontend/assets/js/pages/product.js:234 | raising "out of_stock" gives "OUT OF_STOCK" |
| ProductPage.OutOfStockSpaced | Frontend/assets/js/pages/product.js:234 | the replacement turns "out_of_stock" into "out of_stock" |
| ProductPage.StatusLabelInStock | Frontend/assets/js/pages/product.js:234 | "in_stock" is shown as "IN STOCK" |
| ProductPage.StatusStylingAgrees | Frontend/assets/js/pages/product.js:224-234 | the colour class and the icon of a status cell agree: success colour exactly with the check icon, exactly for "in_stock"; each is one of its two values |
| ProductPage.CapitalizeIdempotent | Frontend/assets/js/pages/product.js:171 | capitalizing keeps the length and every character after the first, a capitalized key is left as it is, and a key that starts with anything but a lower-case letter is shown unchanged |
| ProductPage.BadgeLabels | Frontend/assets/js/pages/product.js:166-174 | at most one badge per option |
| ProductPage.BadgeLabelsIff | Frontend/assets/js/pages/product.js:166-174 | a label is shown exactly when some enabled option's key capitalises to it |
| ProductPage.RenderBadges | Frontend/assets/js/pages/product.js:163-174 | missing options show no badge; otherwise one badge per enabled option, in entry order |
| ProductPage.ProductPage.RenderCategories | Frontend/assets/js/pages/product.js:590-614 | the list shows the categories matching the filter, in order, exactly the chosen category's row marked |
| ProductPage.ProductPage.OnShow | Frontend/assets/js/pages/product.js:37-43 | the product from the button is remembered and the categories are fetched and rendered; a failure shows "Failed to load categories" (also lines 580-588) |
| ProductPage.ProductPage.OnHide | Frontend/assets/js/pages/product.js:46-51 | the choice, the filter and the list are cleared |
| ProductPage.ProductPage.Search | Frontend/assets/js/pages/product.js:54-57 | the filter becomes the lowered text and the list is rendered again |
| ProductPage.ProductPage.Change | Frontend/assets/js/pages/product.js:629-633 | a checked radio item becomes the chosen category; an unchecked one leaves the choice |
| ProductPage.ProductPage.SaveCategory | Frontend/assets/js/pages/product.js:636-654 | without a choice, "Please select a category" and no call; without a product the id read throws and "Failed to assign category" is shown with no call; otherwise only `category_id` is sent for the product, and a success closes the dialog, whose hide handler clears the choice, the filter and the list, reloads and reports it |
| RolePage.CategoriesDisjoint | Frontend/assets/js/pages/role.js:236-246 | no permission name is listed under two categories and no category is called "Other" |
| RolePage.FirstCategory | Frontend/assets/js/pages/role.js:248-252 | the first table entry listing the name, none exactly when no entry lists it |
| RolePage.GetPermissionCategoryIff | Frontend/assets/js/pages/role.js:235-254 | `GetPermissionCategory` puts a name in "Other" exactly when no category lists it; otherwise its category is one that lists it |
| RolePage.CategoryOfListedName | Frontend/assets/js/pages/role.js:235-254 | a name listed under a category belongs to that category |
| RolePage.CategoryExamples | Frontend/assets/js/pages/role.js:241-245 | "Delete Zones" is a Zone permission and "Approve Petty Cash" a Finance one |
| RolePage.InCategory | Frontend/assets/js/pages/role.js:227-230 | a category's members are among the permissions and each has that category; there are no more of them than permissions |
| RolePage.InCategoryMembers | Frontend/assets/js/pages/role.js:227-230 | a permission is a member of a category exactly when it is listed and has that category |
| RolePage.InCategorySnoc | Frontend/assets/js/pages/role.js:230 | one more permission is pushed onto its own category's members only |
| RolePage.GroupIndex | Frontend/assets/js/pages/role.js:227 | the position of the category's group, or the end exactly when there is none yet |
| RolePage.NamesSnoc | Frontend/assets/js/pages/role.js:227-229 | one more permission adds its category as a key, at the end when it is new |
| RolePage.NewGroupStep | Frontend/assets/js/pages/role.js:227-230 | a permission of an unseen category opens a new group holding just it, keeping the grouping exact |
| RolePage.ExistingGroupStep | Frontend/assets/js/pages/role.js:230 | a permission of a seen category is pushed onto that group, keeping the grouping exact |
| RolePage.GroupPermissionsByCategory | Frontend/assets/js/pages/role.js:223-233 | the keys are the permissions' categories, each once, in first-seen order, and each group holds exactly the permissions of its category, in order |
| RolePage.GroupsPartition | Frontend/assets/js/pages/role.js:223-233 | the groups have distinct keys, no group is empty, every member belongs to its group's category, and every permission is in its category's group (also lines 281-283) |
| RolePage.SelectedAmong | Frontend/assets/js/pages/role.js:384-386 | the filtered selection is no longer than the selection |
| RolePage.SelectedAmongMembers | Frontend/assets/js/pages/role.js:384-386 | an id survives the filter exactly when it is selected and one of the category's ids |
| RolePage.NoneAmong | Frontend/assets/js/pages/role.js:384-386 | with none of the category's ids selected the filter is empty |
| RolePage.CheckboxOf | Frontend/assets/js/pages/role.js:383-393 | the box belongs to its category and is never both checked and indeterminate |
| RolePage.AllSelectedChecksBox | Frontend/assets/js/pages/role.js:389 | with distinct ids, a category whose permissions are all selected gets a checked box |
| RolePage.NoneSelectedClearsBox | Frontend/assets/js/pages/role.js:389-393 | a non-empty category with nothing selected gets a box neither checked nor indeterminate |
| RolePage.SelectAllBoxes | Frontend/assets/js/pages/role.js:379-395 | one box per category of all permissions, in grouping order |
| RolePage.CategoryIds | Frontend/assets/js/pages/role.js:76-78 | exactly the ids of the permissions of that category |
| RolePage.SelectAllThenChecked | Frontend/assets/js/pages/role.js:73-89 | after "select all" on a category its box is checked (also lines 379-395) |
| RolePage.UnselectAllThenCleared | Frontend/assets/js/pages/role.js:73-89 | after clearing "select all" on a category its box is neither checked nor indeterminate (also lines 379-395) |
| RolePage.FilterPermissions | Frontend/assets/js/pages/role.js:262-268 | with no filter every permission is kept; otherwise exactly those whose name or description contains the filter ignoring case, in order |
| RolePage.EmptyPermissionFilterKeepsAll | Frontend/assets/js/pages/role.js:263 | the empty filter keeps the whole list in order |
| RolePage.PermissionsOfMembers | Frontend/assets/js/pages/role.js:401-406 | a permission is collected exactly when some role with a permission list holds it |
| RolePage.AllPermissionsMembers | Frontend/assets/js/pages/role.js:397-409 | the unique permissions hold each collected permission once and nothing else |
| RolePage.Chosen | Frontend/assets/js/pages/role.js:415-416 | the saved permissions are exactly the known permissions whose id is selected |
| RolePage.ChosenConcat | Frontend/assets/js/pages/role.js:415-416 | choosing from two lists one after the other is choosing from their concatenation |
| RolePage.ChosenAll | Frontend/assets/js/pages/role.js:415-416 | with every id selected the whole list is saved |
| RolePage.RoleIndex | Frontend/assets/js/pages/role.js:426 | `findIndex`: the first row with that id, or the end when there is none |
| RolePage.SetAll | Frontend/assets/js/pages/role.js:80-86 | checking adds every id of the list to the selection; unchecking deletes every one |
| RolePage.RolePage.GetAllPermissions | Frontend/assets/js/pages/role.js:397-409 | the collected permissions of every role with a list, each once, in first-seen order |
| RolePage.RolePage.UpdateSelectAllCheckboxes | Frontend/assets/js/pages/role.js:379-395 | every category's box is set from the selection; nothing else changes |
| RolePage.RolePage.Render | Frontend/assets/js/pages/role.js:256-327 | the permissions are recollected; unless the highlight pattern throws, the matching ones are grouped by category and the boxes follow the selection; when it throws, the list is left empty and the boxes keep their state (also lines 359-377) |
| RolePage.RolePage.KeyButton | Frontend/assets/js/pages/role.js:168-172 | the row becomes the current role; a role with permissions has exactly their ids selected and the dialog opens; a role without a list throws after that, leaving the selection and the dialog |
| RolePage.RolePage.OnShown | Frontend/assets/js/pages/role.js:49-54 | the dialog renders with the filter it had, then the filter is cleared; a render stopped by the highlight pattern keeps the filter |
| RolePage.RolePage.OnHidden | Frontend/assets/js/pages/role.js:56-60 | the selection, the current role and the filter are cleared |
| RolePage.RolePage.Search | Frontend/assets/js/pages/role.js:67-70 | the filter becomes the lowered text and the dialog renders again, or stops with an empty list when the highlight pattern throws |
| RolePage.RolePage.Toggle | Frontend/assets/js/pages/role.js:340-347 | the permission is selected exactly when its box is checked, every other id keeps its state, and the category boxes follow |
| RolePage.RolePage.SelectAll | Frontend/assets/js/pages/role.js:73-89 | every id of the category becomes selected when checked and unselected otherwise; every other id keeps its state; the dialog renders again, or stops with an empty list when the highlight pattern throws |
| RolePage.RolePage.SavePermissions | Frontend/assets/js/pages/role.js:411-438 | without a current role nothing happens; otherwise the role is sent with the selected known permissions; a failure shows "Failed to update permissions"; success patches the grid row with that id when there is one, closes and reports it |

## Left out

- JWT signing and parsing are function parameters (`validate`, `generate`), because they are cryptographic library calls. The float64 `tenant_id` claim is not modelled.
- bcrypt is an abstract salted hash: a comparison accepts exactly the hashed password. The cost factor and the hash format are not modelled.
- `uuid.Parse` is a function parameter, because the UUID text format belongs to a library.
- The gorm repositories are in-memory tables. SQL paging (`OFFSET`, `LIMIT`, `ORDER BY`), tenant filtering, the `Preload("Zone")` of the office reads (the zone reads' `Preload("Offices")` is modelled by `ZoneService.ZoneService.Load`) and the audit columns set by the repositories are not modelled. The error texts of the database and of bcrypt are stand-in strings (`<database error>`, `<bcrypt error>`).
- ZoneService.AssignOffices: each office is written back with its `ZoneID` set. The model does not capture gorm's saving of a preloaded `Zone` association, which could also rewrite the key.
- ZoneService Create, Update and Delete, and the plain reads of OfficeService, are single repository calls with no logic of their own.
- MenuService GetAllMenus, GetMenuByID, GetMenusByRoleID, GetMenusByUserID, Create, Update, GetByID and GetAll are a repository read followed by `BuildMenuTree`, or a plain repository call. They are modelled through `BuildMenuTree` and the table functions only.
- OfficeService.OfficeService.Create: the office is always stored under the next id. gorm's `Create` keeps a non-zero `ID` the caller passes in, and the handler's JSON body can carry one. That path, and its possible duplicate-key failure, are not modelled.
- OfficeService.OfficeService.Update: the audit entry's new value is the office as passed in, which is what the service logs. The merged row that gorm writes is not logged.
- AuthHandler.Login: the role's menus are an unconstrained parameter (`menusByRole`). The model does not tie them to what the menu repository returns, so the order-dependence lemma is about the loop on any input, not about the menus the repository serves.
- GetMenuIcon (`MenuView.GetMenuIcon`): `menuIcons[icon] || icon` also finds members that every object inherits from `Object.prototype`. For keys such as "constructor" or "toString" the page returns a function instead of the key. The model returns such keys unchanged.
- ContentLoader.Loader.LoadMenuGrid: the menu page's own handlers, its grid data and its `dispose` are not modelled. Only the page slot and the grid handle are.
- MenuHandler: `GetMenusByRole` calls the service with one argument while `Login` passes two. The model follows each call site as written.
- Config: the `sync.Once` memo of `GetConfig` is concurrency, and is left out. So is the way `.env` loading merges into the process environment. The environment is a map, and loading the file is a boolean outcome.
- UserService.UserService.CreateUser, UserService.UserService.UpdateUser: the `unique;not null` constraint on the email column (Backend/internal/domain/user/entity.go:13) is enforced only by the database. The model does not keep distinct emails in `Valid`; a duplicate-email insert or update is one of the failures folded into the `createOk` and `updateOk` outcome flags.
- ZoneService.ZoneService.FindByID, ZoneService.Assigned: a failed repository read is folded into `NotFound`. The source returns the repository's own error (zone_service.go:34-36 and 132-134); the model does not tell a missing row from a read failure.
- AuthMiddleware.Authenticate: the permission loader is the parameter `loadPermissions`. The middleware obtains it through `c.MustGet("userService").(*application.UserService).GetUserPermissions` (auth.go:54-57), but `application.UserService` has no such method; only the user repository has one (user_repository.go:79). The panics of `MustGet` and of the type assertion are not modelled.
- MenuService.BuildMenuTree: menu/entity.go:15 declares `Children []Menu`, while menu_service.go:95-101 builds `[]*menu.Menu`. The model takes the pointer reading: nodes are shared, so a child appended to its parent after the parent was itself attached is still seen through it. The forest is an id graph (a node table, a children list per id and the root ids).
- AuditContext and AuditMiddleware: the user-context key lives in a package outside this model, so it is a parameter.
- Server: `Server.InjectConfig` expands the `$` patterns of `String.prototype.replace` (`$$`, `$&`, `` $` ``, `$'`) in the replacement text. The lemmas InjectBeforeFirstHead, InjectAssignsApiUrl and InjectTwiceGrowsTwice require an API URL without `$`; DollarPatternInUrl shows what happens otherwise. Numbered and named groups (`$1`, `$<name>`) cannot occur, because the pattern is a plain string.
- The DOM beyond the fields the page controllers read and write is left out. So are the DevExtreme grid configuration and cell templates, the "No ... found" placeholder of an empty list, and the grid's own create, update and delete handlers. Asynchronous interleaving of two handlers is not modelled: every awaited call completes before the next handler runs.
- The grid data source of each page is a field that is already loaded. A page's `loadData` fetch is not modelled.
- JavaScript truthiness: the cases the pages depend on (an id of 0 and null values) are modelled. Other falsy values such as `NaN` are not.
- Case mapping and substring search are ASCII-only; Unicode case folding is not modelled.
- RolePage.GetAllPermissions: duplicates are removed by structural equality of the permission record. `JSON.stringify` also depends on key order, and that is not modelled.
- RolePage: the checkbox of each individual permission in the DOM is not modelled. The selection set is what those boxes show.
- RolePage.UpdateSelectAllCheckboxes: a box state is computed for every category of the collected permissions, including ones the current filter hides. The page only finds boxes that are rendered.
- RolePage.AllSelectedChecksBox: it assumes the category's permission ids are distinct. With two distinct permissions sharing an id the selected count stays below the group size, so the box is never checked.
- RolePage.RolePage.SavePermissions: the grid row (`items[index]`) and `currentRole` may be the same object in the page. The model patches the row by value.
- RolePage.FilterPermissions: a permission's description is always a string. The page throws on a null description before it can filter.
- RolePage.RolePage.Render (and Search, SelectAll and OnShown, which call it): whether `new RegExp(`(${filter})`, 'gi')` accepts the filter is the parameter `patternOk`. The model does not decide JavaScript regular-expression syntax. A filter such as "(" throws there, and the model then stops the render before the boxes are updated. The `<mark>` markup a valid pattern produces is not modelled.
- ContentLoader and RouteHandler: the fragment fetch, script loading and the browser history are recorded calls with boolean outcomes. Their callbacks run inside the call.

## Findings

| source | as written | input that shows it | evidently intended | confidence | as-written member | corrected member |
|---|---|---|---|---|---|---|
| Backend/internal/application/zone_service.go:165-172 | `RemoveOffices` sets `office.ZoneID = nil` and writes the office with `Updates(o)` (Backend/internal/infrastructure/postgres/office_repository.go:50-56). gorm's `Updates` with a struct skips nil fields, so the reset key is never written. | office 1 stored in zone 5; `RemoveOffices(5, [1])` | the office leaves the zone: its `ZoneID` becomes null | likely; not executed | ZoneService.RemoveOfficesAsWrittenKeepsZone | ZoneService.RemoveOfficesExact |
| Frontend/assets/js/pages/office.js:36-38 | The show handler only loads the zones. It never sets `currentOffice`, although the button carries `data-office-id` (lines 184-187). `saveZone` then reads `this.currentOffice.id` (line 381), which throws. | open the zone dialog of any office, choose a zone, press save | the dialog remembers the office on show, and save assigns the zone to it | high; not executed | OfficePage.SaveAfterShowAsWritten | OfficePage.SaveAfterShowCorrected |
