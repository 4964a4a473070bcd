# Help-desk server core in Dafny

This project models the core of a help-desk application: an Express/Mongoose server with a small
React client. Users register and log in. Administrators create, update, deactivate and delete users.
Users create projects and add members to them, raise tickets, and comment on tickets. Every private
route passes through the `protect` middleware, which turns a bearer token into `req.user`. The
client colours status and priority values with a badge.

What is modelled:

- **Request validators.** These are the Zod string schemas: usernames, Amazon e-mail addresses,
  project titles and descriptions, ticket titles, and the priority and status enums. A Zod schema
  runs all of its checks. A parse either returns the input unchanged or returns the messages of
  every failed check.
- **Mongoose schemas.** These cover tickets, comments, projects and users, as validate-and-normalise
  functions.
  - A `trim` setter runs before `required`, `maxlength`, `enum` and `match`. So a value made only of
    blanks fails `required`.
  - Defaults fill fields that were left undefined.
  - `timestamps` sets `createdAt` and `updatedAt`.
  - The unique index on e-mail is a predicate over the whole collection.
  - The e-mail regular expression is written out as a predicate.
- **The database.** It is one `Store.Db` object holding a sequence of documents per collection, in
  natural order, and a counter that hands out fresh ObjectIds. `Db.Valid()` is the invariant every
  handler preserves:
  - ids are distinct;
  - e-mails are unique;
  - project member lists and user project lists have no repeats;
  - every stored ticket and comment is well formed, with a trimmed title or content that is within
    bounds.
- **The handlers.** Handlers that write are methods that change `Db`. Each one states its reply and
  the whole new state for every branch. Queries are functions:
  - login, user search, project listing, ticket listing and comment listing;
  - listings are proved ordered by `createdAt` and to be exactly the matching documents.
- **`protect`.** It is an imperative method, proved equal to a specification function. That function
  gives the responses attempted, whether `next` is called, and the new `req.user`.
- **`getColors`.** The badge's colour classifier.

Operations the code calls but whose definitions are not in the repository become function
parameters:
- bcrypt's `hash` and `compare`;
- `jwt.verify`, which yields the id in the payload or fails. A signed token is represented by the
  user id it is signed for;
- Zod's `z.email()`;
- Mongo's case-insensitive `$regex` match;
- the database lookup that `protect` performs.

## Behaviour the proofs make explicit

These are stated as lemmas about the code as written.

- **Status names disagree.** The request validator's status list spells "In-Progress". The ticket
  schema spells "In Progress". The badge colours only the hyphenated spelling. So two of the four
  statuses the schema stores get the default badge (`TicketModel.StatusDrift`,
  `StatusBadge.InProgressWithoutColour`, `StatusBadge.InReviewWithoutColour`).
- **Sizing lists disagree.** The schema accepts sizings 13 and 21, which the shared constants do not
  list (`TicketModel.SizingSuperset`).
- **E-mail patterns disagree.** The request validator accepts `user+tag@amazon.com`. The
  schemas' e-mail pattern rejects it. No handler checks an address against the pattern before
  storing a user, so such a user can never create a ticket
  (`UserModel.EmailPatternsDisagree`, `TicketController.PlusAddressCannotCreateTickets`).
- **Blank project names.** A project name made only of blanks passes the request validator but fails
  the schema after trimming. It is answered with 500, not 400
  (`ProjectController.BlankNameIsServerError`).
- **Header checks in `protect`.**
  - Only the prefix `Bearer` is checked, so `BearerX abc` is accepted with token `abc`.
  - A bare `Bearer` header makes the middleware attempt two responses: "token failed", then "no token".
  - A valid token whose user no longer exists still calls `next` with `req.user` set to null.
- **User schema drift.** `server/src/models/user.ts` requires a `name`, hides the password
  (`select: false`) and has no `username`, `isAdmin`, `isActive`, `jobTitle` or `projects`. The
  auth handlers write and read exactly those fields, and never a `name`.
  - The schema's own validation is modelled in `UserModel`, where `UserModel.RegisterFieldsLackName`
    shows that the documents the handlers build fail it.
  - The handlers are modelled over the record they actually write (`Store.User`).

## Model

| member | source | states |
|---|---|---|
| Text.Trim | server/src/models/ticket.ts:19 | the result has no whitespace at either end, is no longer than the input and uses only the input's characters |
| Text.TrimStart | server/src/models/ticket.ts:19 | the result is the suffix that starts at the first non-whitespace character; everything dropped is whitespace |
| Text.TrimEnd | server/src/models/ticket.ts:19 | the result is the prefix that ends at the last non-whitespace character; everything dropped is whitespace |
| Text.TrimEmptyIffBlank | server/src/controllers/authController.ts:197 | `trim()` yields the empty string exactly when the input is all whitespace |
| Text.TrimFixesTrimmed | server/src/models/comment.ts:15 | trim leaves a string unchanged exactly when neither end is whitespace |
| Text.TrimIdempotent | server/src/models/comment.ts:15 | trimming twice equals trimming once |
| Text.CodeUnits | server/src/models/ticket.ts:20 | a character occupies one UTF-16 code unit, or two when it lies outside the Basic Multilingual Plane |
| Text.JsLength | server/src/models/ticket.ts:20 | JavaScript `length` lies between the number of characters and twice that number |
| Text.JsLengthAppend | server/src/models/ticket.ts:20 | the length of a concatenation is the sum of the lengths |
| Text.JsLengthBmp | server/src/constants/Primitives.ts:31-35 | a string of Basic Multilingual Plane characters has one code unit per character |
| Text.JsLengthAstral | server/src/constants/Primitives.ts:41-45 | a string of characters outside the Basic Multilingual Plane has two code units per character |
| Text.JsLengthSlice | server/src/models/ticket.ts:19-20 | a slice is never longer than the string it is cut from |
| Text.TrimShortens | server/src/models/ticket.ts:19-20 | trimming never increases the length in code units, so `maxlength` is checked on a value no longer than the input |
| Text.Lower | server/src/controllers/authController.ts:34 | same length; every character is lower-cased on its own |
| Text.LowerChar | client/src/components/StatusBadge.tsx:9 | the result is never an upper-case letter, and it is a letter exactly when the input was one |
| Text.LowerIdempotent | client/src/components/StatusBadge.tsx:9 | lower-casing twice equals lower-casing once |
| Text.Split | server/src/middleware/authMiddleware.ts:17 | at least one field, and no field contains the separator |
| Text.JoinSplit | server/src/middleware/authMiddleware.ts:17 | joining the fields of a split with the separator restores the string |
| Text.SplitJoin | server/src/middleware/authMiddleware.ts:17 | splitting separator-free fields joined by the separator gives the fields back |
| Text.SplitCons | server/src/middleware/authMiddleware.ts:17 | the first field is everything before the first separator |
| Text.SplitNoSeparator | server/src/middleware/authMiddleware.ts:17 | a string without the separator splits into itself alone |
| Text.SeveralFieldsIffSeparator | server/src/middleware/authMiddleware.ts:17 | there is a second field exactly when the separator occurs |
| Sorting.Insert | server/src/controllers/ticketController.ts:11 | inserting into an ordered sequence keeps it ordered and adds exactly that element |
| Sorting.OrderedCons | server/src/controllers/ticketController.ts:11 | an element that may precede every element of an ordered sequence can be put in front |
| Sorting.SortBy | server/src/controllers/ticketController.ts:11 | the result is ordered by the key (ascending or descending) and is a permutation of the input |
| Sorting.SortedSameElements | server/src/controllers/commenController.ts:39 | sorting neither adds nor loses documents |
| Primitives.FailedMessages | server/src/constants/Primitives.ts:31-35 | no messages exactly when every check passed |
| Primitives.RunChecks | server/src/constants/Primitives.ts:31-35 | a parse succeeds exactly when all checks pass; it then returns the input unchanged, otherwise at least one message |
| Primitives.ParseUsername | server/src/constants/Primitives.ts:31-35 | accepted exactly when 1 to 8 characters, all lower-case ASCII letters; returns the input |
| Primitives.ParseUserEmail | server/src/constants/Primitives.ts:37-39 | accepted exactly when it is an e-mail address and matches `[a-zA-Z0-9._%+-]+@amazon.com` |
| Primitives.ParseProjectTitle | server/src/constants/Primitives.ts:41-45 | accepted exactly when 1 to 100 UTF-16 code units (JavaScript `length`) without `<` or `>` |
| Primitives.ParseProjectDescription | server/src/constants/Primitives.ts:47-52 | accepted exactly when 1 to 4096 UTF-16 code units without `<` or `>` |
| Primitives.ParseTicketTitle | server/src/constants/Primitives.ts:55-59 | accepted exactly when 1 to 100 UTF-16 code units (JavaScript `length`) without `<` or `>` |
| Primitives.AstralTitleTooLong | server/src/constants/Primitives.ts:41-45 | 51 emoji (102 code units) exceed the project title limit of 100 |
| Primitives.ParseEnum | server/src/constants/Primitives.ts:61-62 | accepted exactly when the value is one of the options (case-sensitive) |
| Primitives.ParseTicketPriority | server/src/constants/Primitives.ts:61 | accepts exactly "Low", "Medium", "High" |
| Primitives.ParseTicketStatus | server/src/constants/Primitives.ts:62 | accepts exactly "Open", "In-Progress", "In Review", "Closed" |
| Primitives.UsernameHasNoHtml | server/src/constants/Primitives.ts:31-35 | an accepted username never contains `<` or `>` |
| Primitives.UserEmailShape | server/src/constants/Primitives.ts:37-39 | an accepted e-mail is a non-empty local part over the allowed characters followed by exactly `@amazon.com` |
| Primitives.AmazonAddressOf | server/src/constants/Primitives.ts:37-39 | conversely, any such local part followed by `@amazon.com` matches the Amazon pattern |
| Primitives.UsernameBoundaries | server/src/constants/Primitives.ts:31-35 | 8 letters pass, although the message says "less than 8"; the empty string fails |
| Primitives.UsernameTooLong | server/src/constants/Primitives.ts:34 | 9 letters fail |
| Primitives.UsernameCharacters | server/src/constants/Primitives.ts:31-35 | capitals and digits fail |
| Primitives.UserEmailRejections | server/src/constants/Primitives.ts:37-39 | an empty local part and another domain are rejected |
| Primitives.DescriptionMustBeNonEmpty | server/src/constants/Primitives.ts:47-52 | the empty description is rejected although the field is optional in the request |
| Primitives.EnumsAreCaseSensitive | server/src/constants/Primitives.ts:25-26 | lower-case or unknown enum values are rejected; "In-Progress" is accepted |
| EmailPattern.SingleAt | server/src/models/user.ts:19-22 | a matching address has exactly one `@` and non-empty halves |
| EmailPattern.WordIsDotted | server/src/models/user.ts:20 | a non-empty run of word characters matches `\w+([\.-]?\w+)*` |
| EmailPattern.Matches | server/src/models/user.ts:19-22 | every character of a matching address is a word character, `.`, `-` or `@` |
| EmailPattern.RejectsPlus | server/src/models/ticket.ts:47-50 | no address containing `+` matches the pattern |
| EmailPattern.JoinedIsDotted | server/src/models/user.ts:20 | two such runs joined by one dot or dash match it again |
| EmailPattern.AcceptsPlainAmazonAddress | server/src/models/ticket.ts:44-51 | `john@amazon.com` matches |
| EmailPattern.AcceptsDottedAmazonAddress | server/src/models/ticket.ts:44-51 | `jane.doe@amazon.com` matches |
| EmailPattern.BadLocalCharRejects | server/src/models/ticket.ts:44-51 | any character other than a word character, dot or dash before the `@` rules out a match |
| EmailPattern.RejectsPlusInLocalPart | server/src/models/ticket.ts:44-51 | `user+tag@amazon.com` does not match |
| EmailPattern.RejectsEmptyDomain | server/src/models/ticket.ts:44-51 | `john@` does not match |
| TicketModel.Failures | server/src/models/ticket.ts:15-56 | a field is named exactly when its validators fail |
| TicketModel.Validate | server/src/models/ticket.ts:15-56 | saving succeeds exactly when every field is valid; on failure it names exactly the failing fields; a saved ticket has the trimmed title and the defaults "Open", "Low", 1 |
| TicketModel.ValidatedIsWellFormed | server/src/models/ticket.ts:16-21 | a saved ticket's title is trimmed and 1 to 100 UTF-16 code units; its enums are in range and its e-mail matches |
| TicketModel.DefaultsWhenOmitted | server/src/models/ticket.ts:26-43 | omitted status, priority and sizing become "Open", "Low" and 1 |
| TicketModel.BlankTitleRejected | server/src/models/ticket.ts:16-21 | a title of blanks fails validation on the title |
| TicketModel.StatusDrift | server/src/models/ticket.ts:29 | "In-Progress" passes the request validator but fails the schema, and "In Progress" the reverse |
| TicketModel.SizingSuperset | server/src/models/ticket.ts:41 | every shared sizing is accepted by the schema, which also accepts 13 and 21 |
| TicketModel.PriorityAgrees | server/src/models/ticket.ts:34 | the schema and the request validator accept the same priorities |
| CommentModel.Failures | server/src/models/comment.ts:11-32 | names exactly the required fields that fail |
| CommentModel.Validate | server/src/models/comment.ts:11-32 | created exactly when the trimmed content is 1 to 1000 UTF-16 code units and ticket and author are given; `isSystem` defaults to false; both timestamps are the creation time |
| CommentModel.ValidatedIsWellFormed | server/src/models/comment.ts:12-17 | stored content is trimmed and within bounds |
| CommentModel.HumanByDefault | server/src/models/comment.ts:28-31 | a comment created without `isSystem` is not a system comment |
| CommentModel.BlankContentRejected | server/src/models/comment.ts:12-17 | blank content is rejected |
| ProjectModel.Validate | server/src/models/project.ts:10-28 | saved exactly when the trimmed name is 1 to 100 UTF-16 code units without markup and any trimmed description is within 4096 code units without markup; on failure it names exactly the failing fields |
| ProjectModel.TrimKeepsBounds | server/src/models/project.ts:11-23 | trimming never lengthens a value or introduces `<` or `>` |
| ProjectModel.RequestValidImpliesSchemaValid | server/src/models/project.ts:11-17 | a request-valid project passes the schema exactly when its name is not blank |
| UserModel.Validate | server/src/models/user.ts:10-39 | valid exactly when the name is given, the e-mail matches, the password has at least 6 UTF-16 code units and any role is "user" or "admin"; the role defaults to "user"; on failure the error names exactly the failing paths among name, e-mail, password and role |
| UserModel.AstralPasswordLongEnough | server/src/models/user.ts:27 | three emoji (six code units) meet `minlength: 6`; five ASCII letters do not |
| UserModel.Insert | server/src/models/user.ts:15-22 | succeeds exactly when the document validates and its e-mail is not taken, and then appends it; an invalid document is refused with its failing paths; a valid one with a taken e-mail with a duplicate-key error |
| UserModel.InsertKeepsEmailsUnique | server/src/models/user.ts:18 | insertion keeps e-mails unique |
| UserModel.DefaultView | server/src/models/user.ts:24-28 | a default query returns every field except the password |
| UserModel.RegisterFieldsLackName | server/src/models/user.ts:11-14 | the document the auth handlers build (no `name`) fails the schema |
| UserModel.EmailPatternsDisagree | server/src/models/user.ts:19-22 | an address the request validator accepts fails the schema's pattern |
| Store.FirstIndex | server/src/controllers/authController.ts:22 | the first position satisfying the filter, or none when no position does |
| Store.Select | server/src/controllers/projectController.ts:68 | exactly the documents satisfying the filter, without new ones |
| Store.SelectAppend | server/src/controllers/projectController.ts:68 | filtering keeps the stored order: the filter of a concatenation is the concatenation of the filters |
| Store.UserWithEmail | server/src/controllers/authController.ts:22 | `findOne({ email })`: a user with that e-mail, or none exists |
| Store.UserWithId | server/src/controllers/authController.ts:178 | `findById`: a user with that id, or none exists |
| Store.ProjectWithId | server/src/controllers/projectController.ts:100 | a project with that id, or none exists |
| Store.TicketWithId | server/src/controllers/commenController.ts:13 | a ticket with that id, or none exists |
| Store.Db.WriteUsers | server/src/controllers/authController.ts:202 | a write that keeps the users consistent keeps the store valid and changes nothing else |
| Store.Db.WriteProjects | server/src/controllers/projectController.ts:109-110 | a write that keeps the projects consistent keeps the store valid and changes nothing else |
| Store.Db.InsertUser | server/src/controllers/authController.ts:33-37 | the user is appended under the next ObjectId, the counter advances and the store stays valid |
| Store.Db.InsertProject | server/src/controllers/projectController.ts:37 | the project is appended under the next ObjectId, the counter advances and the store stays valid |
| Store.Db.InsertTicket | server/src/controllers/ticketController.ts:41-42 | the ticket is appended under the next ObjectId, the counter advances and the store stays valid |
| Store.Db.InsertComment | server/src/controllers/commenController.ts:17-21 | the comment is appended under the next ObjectId, the counter advances and the store stays valid |
| Store.AppendUserKeepsOk | server/src/controllers/authController.ts:33-37 | adding a user with a fresh id and an unused e-mail keeps the users consistent |
| Store.AppendProjectKeepsOk | server/src/controllers/projectController.ts:37 | saving a project with a fresh id keeps the projects consistent |
| Store.AppendTicketKeepsOk | server/src/controllers/ticketController.ts:41-42 | a new well-formed ticket with a fresh id keeps the tickets consistent |
| Store.AppendCommentKeepsOk | server/src/controllers/commenController.ts:17-21 | a new well-formed comment with a fresh id keeps the comments consistent |
| AuthController.ProfileOf | server/src/controllers/authController.ts:204-211 | the response carries the user's id, username and e-mail |
| AuthController.NewUser | server/src/controllers/authController.ts:33-37 | the stored username is lower-cased, the password is the hash, and there are no projects |
| AuthController.RegisterUser | server/src/controllers/authController.ts:17-61 | 400 for a taken e-mail; 500 without username or password; otherwise exactly one new user and 201 with a token for it |
| AuthController.AdminFlag | server/src/controllers/authController.ts:143 | admin exactly when `isAdmin` is true |
| AuthController.JobTitleOrDefault | server/src/controllers/authController.ts:144 | the given job title if non-empty, otherwise "Software Engineer" |
| AuthController.CreateUser | server/src/controllers/authController.ts:126-162 | as registration, plus the admin flag and the defaulted job title |
| AuthController.LoginUser | server/src/controllers/authController.ts:66-96 | 200 exactly when the e-mail is known, the password matches and the account is not deactivated; 403 exactly when it is deactivated; 401 exactly when unknown or mismatched; 500 exactly when the e-mail is known and no password is given, because `bcrypt.compare` throws |
| AuthController.UndefinedIsActive | server/src/controllers/authController.ts:75 | an account without `isActive` logs in |
| AuthController.ActiveMatching | server/src/controllers/authController.ts:109-112 | exactly the active users whose username matches the query |
| AuthController.Hits | server/src/controllers/authController.ts:113 | one hit per user, with only id, username, e-mail and job title |
| AuthController.SearchUsers | server/src/controllers/authController.ts:98-121 | 400 exactly without a single non-empty query string; otherwise the hits are the first min(10, matches) active matching users in natural order, one hit each |
| AuthController.FewMatchesAllListed | server/src/controllers/authController.ts:109-113 | with at most ten matches, every active matching user appears among the hits |
| AuthController.UpdateUser | server/src/controllers/authController.ts:176-225 | 404 for an unknown id; 400 when the new e-mail belongs to another user; otherwise exactly that user is replaced by its update |
| AuthController.Assign | server/src/controllers/authController.ts:182-200 | the field-by-field assignments produce exactly the specified update |
| AuthController.ReplaceUserKeepsOk | server/src/controllers/authController.ts:202 | a save that keeps ids and takes no other user's e-mail keeps the users consistent |
| AuthController.EmptyStringsKeepFields | server/src/controllers/authController.ts:182-184 | empty strings leave username, e-mail and job title unchanged |
| AuthController.FlagsApplyEvenWhenFalse | server/src/controllers/authController.ts:187-194 | `false` flags are applied |
| AuthController.PasswordChangesOnlyWhenNonBlank | server/src/controllers/authController.ts:197-200 | the hash changes exactly when a non-blank password is given |
| AuthController.Updated | server/src/controllers/authController.ts:182-200 | id and project list never change; a non-empty username, e-mail or job title replaces the old one and anything else keeps it; a provided `isAdmin` or `isActive` (false included) is applied and an absent one kept; the password becomes the hash of a non-blank new one and otherwise stays; an empty body changes nothing |
| AuthController.RemoveUserKeepsOk | server/src/controllers/authController.ts:238 | removing a user removes exactly the user with that id and keeps the others and the users' consistency |
| AuthController.DeleteUser | server/src/controllers/authController.ts:227-246 | 404 for an unknown id; 400 for the caller; otherwise exactly that user is removed and every other user is kept |
| ProjectController.RequestIssues | server/src/controllers/projectController.ts:9-12 | no issues exactly when the name passes the title validator and any description passes the description validator |
| ProjectController.PushProject | server/src/controllers/projectController.ts:41-43 | appends the project to that user's list; no change without such a user |
| ProjectController.AddProjectToSet | server/src/controllers/projectController.ts:113-115 | afterwards that user lists the project once; no change when already listed or without such a user |
| ProjectController.PushFreshProjectKeepsOk | server/src/controllers/projectController.ts:41-43 | pushing a project the user does not list keeps the lists free of repeats |
| ProjectController.NewIdUnlisted | server/src/controllers/projectController.ts:41-43 | no user lists an id that has not been handed out, so the new project is not listed twice |
| ProjectController.CreateProject | server/src/controllers/projectController.ts:14-61 | 400 with every issue; 401 without a caller; 500 when the schema fails; otherwise one new project with the caller as its only member, the caller's list updated, and 201 |
| ProjectController.BlankNameIsServerError | server/src/controllers/projectController.ts:53-59 | a request-valid body fails the schema exactly when the name is blank |
| ProjectController.CreatorListsProject | server/src/controllers/projectController.ts:41-43 | after creation the creator lists the project |
| ProjectController.GetProjects | server/src/controllers/projectController.ts:63-76 | exactly the projects the caller is a member of, newest first |
| ProjectController.GetProjectById | server/src/controllers/projectController.ts:79-92 | 404 exactly when no project has the id; otherwise 200 with the project that has it |
| ProjectController.WithMember | server/src/controllers/projectController.ts:109-110 | the saved project is the same project with `userId` appended to its members and a new `updatedAt`; its members are exactly the old ones plus `userId` |
| ProjectController.AddMemberKeepsOk | server/src/controllers/projectController.ts:109-110 | adding a non-member keeps member lists free of repeats |
| ProjectController.AddToSetKeepsOk | server/src/controllers/projectController.ts:113-115 | `$addToSet` keeps the users consistent |
| ProjectController.AddMember | server/src/controllers/projectController.ts:94-125 | 404 for an unknown project; 400 for a member; otherwise the user is appended to the members and the project is added to the user's set |
| ProjectController.AddedMemberSeesProject | server/src/controllers/projectController.ts:109-110 | an added member sees the project in their project list |
| CommentController.AddComment | server/src/controllers/commenController.ts:6-30 | 500 without a caller; 404 for an unknown ticket; 500 when the schema fails; otherwise exactly one new comment and 201 |
| CommentController.StoredCommentBelongsToCaller | server/src/controllers/commenController.ts:17-21 | the stored comment is the caller's, on that ticket, trimmed and not a system comment |
| CommentController.GetComments | server/src/controllers/commenController.ts:33-45 | exactly the ticket's comments, oldest first |
| CommentController.AddedCommentIsListed | server/src/controllers/commenController.ts:33-45 | a comment just added is listed for its ticket |
| TicketController.GetTickets | server/src/controllers/ticketController.ts:8-16 | all tickets, newest first, none lost or added |
| TicketController.CreateTicket | server/src/controllers/ticketController.ts:21-50 | 401 without a caller; 400 when the schema fails; otherwise exactly one new ticket and 201 |
| TicketController.OpenAndOwnedByCaller | server/src/controllers/ticketController.ts:32-39 | a created ticket is "Open" and carries the caller's e-mail |
| TicketController.FieldsFor | server/src/controllers/ticketController.ts:32-39 | the new ticket takes title, description, priority and sizing from the body, status "Open" and the caller's e-mail |
| TicketController.PlusAddressCannotCreateTickets | server/src/controllers/ticketController.ts:37 | for every caller whose e-mail contains `+`, the ticket is rejected, and the e-mail path is among the failures |
| TicketController.BlankTitleIsBadRequest | server/src/controllers/ticketController.ts:43-49 | a blank title is refused |
| AuthMiddleware.TokenOf | server/src/middleware/authMiddleware.ts:17 | a token exists exactly when the header has a space, and it contains no space |
| AuthMiddleware.ProtectSpec | server/src/middleware/authMiddleware.ts:10-35 | `next` is called exactly when a bearer header carries a present, verified token whose lookup does not throw, and then nothing is sent; then `req.user` is the found user, or null when the lookup finds none; otherwise only 401s are sent and `req.user` is untouched; two responses exactly when the token is missing |
| AuthMiddleware.Protect | server/src/middleware/authMiddleware.ts:10-35 | the step-by-step middleware does what its specification says |
| AuthMiddleware.TokenAfterFirstSpace | server/src/middleware/authMiddleware.ts:17 | the token is the field after the first space, whatever follows |
| AuthMiddleware.NoBearerNoToken | server/src/middleware/authMiddleware.ts:14 | without a bearer header only "no token" is sent |
| AuthMiddleware.BearerHeader | server/src/middleware/authMiddleware.ts:14-17 | a scheme starting with `Bearer`, a space and a token yields that token |
| AuthMiddleware.SchemeIsOnlyAPrefix | server/src/middleware/authMiddleware.ts:14 | `BearerX abc` is accepted with token `abc` |
| AuthMiddleware.BareBearerAnswersTwice | server/src/middleware/authMiddleware.ts:17-34 | a bare `Bearer` header gets "token failed" and then "no token" |
| AuthMiddleware.MissingUserStillPasses | server/src/middleware/authMiddleware.ts:23-25 | a valid token for a missing user calls `next` with a null user |
| AuthMiddleware.RejectedTokenAnswersOnce | server/src/middleware/authMiddleware.ts:20-29 | a bad token or a failed lookup gets exactly one "token failed" |
| StatusBadge.GetColors | client/src/components/StatusBadge.tsx:8-22 | the default classes exactly when the lower-cased value is none of the six known ones |
| StatusBadge.CaseInsensitive | client/src/components/StatusBadge.tsx:9 | values equal up to case get the same classes |
| StatusBadge.LowerCasedLooksTheSame | client/src/components/StatusBadge.tsx:9 | a value and its lower-cased form get the same classes |
| StatusBadge.KnownValuesAreDistinct | client/src/components/StatusBadge.tsx:12-19 | two known values with the same colour are equal up to case, so with CaseInsensitive the six values get six different colours (its helper `ColourLengths` states the class strings' lengths) |
| StatusBadge.LowerIs | client/src/components/StatusBadge.tsx:9 | lower-casing is determined character by character |
| StatusBadge.PriorityColours | client/src/components/StatusBadge.tsx:12-14 | High is red, Medium yellow, Low blue |
| StatusBadge.StatusColours | client/src/components/StatusBadge.tsx:17-19 | Open is green and CLOSED struck-through grey |
| StatusBadge.HyphenatedInProgressColour | client/src/components/StatusBadge.tsx:18 | In-Progress is purple |
| StatusBadge.UnknownIsDefault | client/src/components/StatusBadge.tsx:21 | an unknown value gets the default classes |
| StatusBadge.InProgressWithoutColour | client/src/components/StatusBadge.tsx:17-21 | the stored status "In Progress" gets the default classes |
| StatusBadge.InReviewWithoutColour | client/src/components/StatusBadge.tsx:17-21 | the stored status "In Review" gets the default classes |

## Left out

- Network, Express routing, response serialisation, `console` logging and process environment (`JWT_SECRET`) are not modelled.
- Asynchrony and concurrent requests are not modelled. Every handler runs atomically. A race between the duplicate-e-mail check and the insert cannot be expressed.
- bcrypt, `jwt.sign`/`jwt.verify`, `z.email()` and Mongo's `$regex` are uninterpreted parameters. Token expiry (30 days) is not modelled.
- AuthController.SearchUsers: answers only 200 or 400. A query that is not a valid regular expression makes `User.find` reject, and the server answers 500; the `$regex` parameter cannot fail, so that 500 is not modelled.
- `populate` is not modelled (getProjectById, addMember, addComment, getComments). Responses carry ids where the server would embed member or author documents.
- Failures of the database itself are not modelled, so the 500 replies that only a failing database produces are missing. The one exception is the lookup in `protect`, which is a parameter that may throw.
- Request fields of the wrong JSON type (numbers or objects where strings are expected) and the casting Mongoose applies are not modelled. Each field has its expected type. Fields other than the `email` of register, create-user and login may also be absent.
- Zod's exact issue objects are not modelled. The 400 reply of createProject carries the list of issue messages.
- Mongoose's validation-error message text (createTicket's 400) is not modelled. The reply is a 400 with a message.
- The "Invalid user data" branches of registerUser and createUser are not modelled. `User.create` either returns a document or throws, so those branches are unreachable.
- `getAllUsers` and an `admin` middleware are not part of this model.
- addMember: `project.save()` re-runs schema validation. It is not repeated, because stored projects passed it when they were created.
- addMember: a `userId` missing from the body is not modelled.
- The user schema in `server/src/models/user.ts` is modelled on its own (`UserModel`). It is not applied to the documents the auth handlers write, because it would reject every one of them. The reason is stated above.
- Text.Lower: lower-cases ASCII letters only, where JavaScript's `toLowerCase` follows Unicode. The badge's comparison strings are ASCII, so `getColors` is unaffected. registerUser and createUser lower-case any username, so a username with non-ASCII capitals (`ÉRIC`) is stored by the server as `éric` and by the model as `ÉRIC`.
- AuthController.RegisterUser: assumes `email` is present in the body. An absent `email` makes the server run `findOne({ email: undefined })`, whose match depends on how the driver serialises `undefined`, which is not part of this model.
- AuthController.CreateUser: assumes `email` is present in the body, for the same reason as registerUser.
- AuthController.LoginUser: assumes `email` is present in the body, for the same reason as registerUser.
- Sorting.SortBy: says nothing about the order of documents with equal `createdAt`, because Mongo does not promise one either.
- AuthController.RegisterUser: the response's exact field selection and the signed token string are represented by the profile and the id the token is signed for.
- The status badge's JSX rendering is not modelled, only `getColors`.
- Timestamps are integers supplied by the caller. Dates, clocks and time zones are not modelled.
