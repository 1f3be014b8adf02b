# Access control and resource lifecycle of a Django learning platform

This project models the core of a small learning-management REST service in
Dafny. In that service:

- users own courses and lessons;
- moderators (staff, superusers or members of a moderators group) may read and
  change everyone's material but may not create any;
- users subscribe to course updates;
- background jobs mail the subscribers of a course at most once every four
  hours, and deactivate accounts that have not logged in for 30 days.

The model has seven modules:

| file | module | what it holds |
|---|---|---|
| models.dfy | Models | The records (user, course, lesson, subscription, payment) and the whole store as one value `Db` of tables. Each table is a sequence of rows in ascending key order. Also the integrity invariant `Valid` (ordered keys, unique e-mail, one subscription per (user, course) pair, resolving foreign keys) and the ON DELETE CASCADE deletions as functions. |
| permissions.dfy | Permissions | `is_moderator`, the ownership and self checks, and the two-level permission classes of the REST framework with their negation and disjunction. |
| views.dfy | Views | The per-action rule tables, query scoping, how a list or detail request is answered (401, 403, 404 or the row), and the subscription toggle as a function. |
| tasks.dfy | Tasks | The notification throttle, the recipient list and the inactivity sweep, as functions of the store and `now`. |
| serializers.dfy | Serializers | The payment link check, the two profile field sets, what registration forwards to `create_user`, and the e-mail normalisation `create_user` applies. |
| validators.dfy | Validators | The YouTube link validator, as written and corrected. |
| store.dfy | Store | `class Database`: the tables and key counters as fields, and one method per endpoint or job that changes them. Each method is proved against the functions above and keeps `Database.Valid`. |

The permission classes follow the REST framework's rules:

- A class that does not override a level allows at that level.
- `~P` negates both levels of `P`.
- `P | Q` allows a request when either operand does. It allows an object when
  one operand allows both the request and the object.

Time is an integer number of seconds. Four hours is 14400 and 30 days is
2592000.

## Model

| member | source | states |
|---|---|---|
| Models.ParseStatus | lms/models.py:77-80 | A stored status value is read back only as the choice it stores; other strings are rejected. |
| Models.StatusRoundTrip | lms/models.py:77-80 | Every status choice reads back from its stored value. |
| Models.AddPaymentKeepsValid | lms/models.py:76-103 | A new payment for an existing user and course, stored under a key above the others, keeps the store valid. Its status reads back from the table as pending, and its currency is "usd". |
| Models.Filter | lms/views.py:43 | A filtered table holds exactly the rows of the table that pass, and is no longer than the table. |
| Models.FilterKeepsOrder | lms/views.py:25 | Filtering a table in ascending key order keeps that order. |
| Models.Find | lms/tasks.py:18-21 | A lookup by key returns a row of the table with that key, and returns nothing exactly when no row has the key. |
| Models.FindUnique | lms/views.py:152 | With unique keys, a lookup by a row's key finds that row. |
| Models.UsersRelabelled | users/tasks.py:22-23 | Updating user rows without changing their keys or addresses keeps the store valid, with the same user keys. |
| Models.OwnerlessResourcesAreValid | lms/models.py:14-40 | A course and lesson with no owner form a valid store. |
| Models.DeleteCourseKeepsValid | lms/models.py:28-93 | Deleting a course with its cascade leaves a valid store whose course keys are the old ones minus that key. |
| Models.DeleteCourseRemovesDependents | lms/models.py:28-93 | The cascade removes exactly the course and the lessons, subscriptions and payments that reference it. Users are unchanged. |
| Models.DeleteUserKeepsValid | lms/models.py:14-87 | Deleting a user with its cascade leaves a valid store whose user keys are the old ones minus that key. |
| Models.DeleteUserRemovesDependents | lms/models.py:14-87 | Deleting a user removes exactly the rows that reference them, directly or through a course they own, and nothing else. The users left are the others. The courses left are those with another owner or none. A lesson survives exactly when they do not own it and its course survives. A subscription or payment survives exactly when it is not theirs and its course survives. |
| Permissions.ModeratorRule | users/permissions.py:3-11 | An anonymous user is never a moderator. Staff and superusers always are. Anyone else is one exactly when in a group named "moderators" or "Модераторы". |
| Permissions.OwnerCheckRule | users/permissions.py:28-39 | Ownership is refused to anonymous users, to objects with neither field, and to ownerless objects. With an `owner` field it is `owner == user`, whatever the `user` field says. Otherwise it is `user == user`. |
| Permissions.SelfRule | users/permissions.py:42-51 | Guarding with signed-in plus IsSelf passes every signed-in request. The only object that gets through is the requester's own account, compared by key. No course, lesson, subscription or payment ever passes. No view of the source attaches this class. |
| Permissions.ModerOrOwner | lms/views.py:56 | The composition of IsModer or IsOwner allows every request, and allows an object exactly for a moderator or its owner. |
| Permissions.NegatedModerRefusesObjects | lms/views.py:54-58 | `~IsModer` allows a request exactly from a non-moderator and refuses every object. |
| Views.CourseRulesCorrected | lms/views.py:51-62 | The corrected table equals the table as written for every action but destroy. |
| Views.CourseCreateRule | lms/views.py:53-54 | Creating a course is allowed exactly for a signed-in non-moderator. |
| Views.CourseReadUpdateRule | lms/views.py:55-56 | For list, retrieve, update and partial update, a request passes exactly when signed in. A course passes exactly for a moderator or its owner. |
| Views.CourseOtherActionRule | lms/views.py:59-60 | Any other action needs only a signed-in user, and every object passes. |
| Views.CourseDestroyAsWritten | lms/views.py:57-58 | As written, the destroy rule refuses every object. |
| Views.CourseDestroyCorrected | lms/views.py:57-58 | With the corrected rule, destroy passes exactly for the signed-in non-moderator owner. |
| Views.LessonListCreateRule | lms/views.py:97-105 | POST to the lesson list is allowed exactly for a signed-in non-moderator. GET and other methods need only a signed-in user. |
| Views.LessonDetailRule | lms/views.py:119 | Lesson detail requests pass exactly when signed in. A lesson passes exactly for a moderator or its owner. |
| Views.CourseScope | lms/views.py:25-43 | The course queryset is empty for anonymous users and all courses for moderators. For anyone else it is exactly the courses they own. It stays in ascending key order. |
| Views.LessonScope | lms/views.py:79-92 | The lesson queryset follows the same three cases, in ascending key order. |
| Views.RequestLevelOutcomes | lms/views.py:51-105 | The request-level answer, over every course action and lesson method: an anonymous request is 401. A moderator gets 403 on course create, course delete and lesson POST, and passes everywhere else. Any other signed-in user passes everywhere. |
| Views.CourseDetailOutcome | lms/views.py:29-56 | Retrieving or updating a course gives 401 when anonymous, and the course for a moderator or its owner. Anyone else gets 404, because the queryset hides the course. |
| Views.CourseDetailMissing | lms/views.py:29-43 | A course key with no row is 404 once the request checks pass. |
| Views.CourseDestroyNeverSucceeds | lms/views.py:57-58 | As written, a course delete request never succeeds, whoever sends it. |
| Views.CourseDestroyCorrectedOutcome | lms/views.py:29-58 | With the corrected rule, a delete gives 401 when anonymous and 403 for a moderator. The owner gets the course. Anyone else gets 404. |
| Views.LessonDetailOutcome | lms/views.py:116-119 | A lesson detail request gives 401 when anonymous and 404 for an unknown key. A moderator or the owner gets the lesson. Any other signed-in user gets 403. |
| Views.ToggleFlipsPair | lms/views.py:154-161 | The toggle removes a present (user, course) pair and replies "подписка удалена", or adds an absent one and replies "подписка добавлена". Every row of another pair is kept, and no row is added for one. |
| Views.ToggleKeepsTableValid | lms/models.py:68-69 | The toggle keeps the subscription keys ascending and the pairs unique, and leaves the next key fresh. |
| Views.ToggleTwiceRestores | lms/views.py:154-163 | Two toggles of the same pair restore the set of pairs, and the two messages differ. Starting without the pair, they restore the table exactly. |
| Tasks.ThrottleBoundary | lms/tasks.py:26-28 | A course never notified is not throttled. A stamped course is throttled until four hours have passed: still at 14399 seconds, no longer at 14400. |
| Tasks.RecipientsExact | lms/tasks.py:30-35 | An address is a recipient exactly when it is non-empty and belongs to a subscriber of the course. |
| Tasks.RecipientsDistinct | lms/tasks.py:30-35 | With unique addresses and one subscription per pair, no address is mailed twice. |
| Tasks.StampCourseKeepsValid | lms/tasks.py:55-56 | Stamping a course keeps the store valid, with the same course keys. |
| Tasks.StampCourseEffect | lms/tasks.py:55-56 | Stamping changes the one course's timestamp to `now` and leaves every other course as it was. |
| Tasks.NotifyCourseRule | lms/tasks.py:23-58 | For an existing course, a throttled course or an empty recipient list mails nobody and changes nothing. Otherwise the job mails the recipients, stamps the course and leaves the store valid. |
| Tasks.NotifyMissingCourse | lms/tasks.py:18-21 | A key with no course mails nobody and changes nothing. |
| Tasks.NotifyAgain | lms/tasks.py:26-56 | After a send, a rerun less than four hours later mails nobody and changes nothing. A rerun four hours later or more mails the same list. |
| Tasks.NotifyForLessonRule | lms/tasks.py:70-111 | The lesson job behaves as the course job on the lesson's course. |
| Tasks.NotifyForMissingLesson | lms/tasks.py:70-73 | A key with no lesson mails nobody and changes nothing. |
| Tasks.SweepEffect | users/tasks.py:19-23 | The sweep clears the active flag exactly of active users whose last login is set and earlier than 30 days ago, and changes nothing else. Users with no login, logged in exactly 30 days ago, or already inactive are untouched. |
| Tasks.SweepCountIsChanged | users/tasks.py:22-25 | The number the sweep reports is the number of rows it changed. |
| Tasks.SweepIdempotent | users/tasks.py:22-23 | A second sweep at the same time finds nobody and changes nothing. |
| Tasks.SweepKeepsValid | users/tasks.py:22-23 | The sweep keeps the store valid, with the same user keys. |
| Serializers.ValidatePayment | users/serializers.py:27-37 | The payment check passes exactly when one of course and lesson is given. It then returns the attributes unchanged; otherwise it raises its validation message. |
| Serializers.ProfileFieldSets | users/serializers.py:40-77 | The public profile omits `last_name` and `payments`. The detailed profile is the public one plus those two. |
| Serializers.RegistrationCreate | users/serializers.py:85-105 | The validated data holds only the form's fields. `create_user` gets the password on its own and every other validated field unchanged. |
| Serializers.NormalizeEmail | users/serializers.py:102-105 | The address `create_user` stores has the same length as the submitted one, with '@' in the same places. |
| Serializers.NormalizeEmailParts | users/serializers.py:102-105 | Normalising keeps the part before the last '@' and lowercases the domain after it. |
| Serializers.NormalizeEmailIdempotent | users/serializers.py:102-105 | Normalising an already normalised address changes nothing. |
| Validators.ValidateYoutubeUrl | lms/validators.py:14-29 | An empty value is accepted. An accepted value comes back unchanged, and a rejection carries the validator's message. |
| Validators.ValidateYoutubeUrlCorrected | lms/validators.py:14-29 | The corrected validator keeps the same promises: an empty value is accepted, an accepted value comes back unchanged, and a rejection carries the message. |
| Validators.HostIgnoresCase | lms/validators.py:18 | Lowercasing the network location first does not change the host. |
| Validators.PortIgnored | lms/validators.py:20-22 | Anything after the first ':' does not change the host. |
| Validators.LinkRule | lms/validators.py:17-27 | A link `scheme://host/…` with a lowercase host and no port, user or path characters is accepted exactly when the host is allowed. |
| Validators.WatchLinkAccepted | lms/validators.py:6-24 | "https://www.youtube.com/watch?v=X" is accepted. |
| Validators.ShortLinkAccepted | lms/validators.py:6-24 | "https://youtu.be/X" is accepted. |
| Validators.OtherHostRejected | lms/validators.py:6-27 | "https://vimeo.com/X" is rejected. |
| Validators.MobileHostRejected | lms/validators.py:6-27 | "https://m.youtube.com/X" is rejected: only exact membership counts. |
| Validators.UserinfoBypass | lms/validators.py:17-24 | "https://youtu.be:@evil.com/" is accepted as written. |
| Validators.BypassHost | lms/validators.py:17 | The host of that link is evil.com. |
| Validators.CorrectedIgnoresUserinfo | lms/validators.py:17-24 | The corrected validator's host does not depend on any "user:password@" prefix. |
| Validators.CorrectedAgreesWithoutUserinfo | lms/validators.py:14-29 | Without an '@' in the network location, both validators agree. |
| Validators.BypassRejectedWhenCorrected | lms/validators.py:24-27 | The corrected validator rejects the bypass link. |
| Store.ToggleKeepsValid | lms/views.py:152-161 | Toggling an existing user's subscription to an existing course keeps the store valid. The next key stays fresh, and moves on only when a row is added. |
| Store.Database.constructor | lms/models.py:9-69 | A new store is empty and valid. |
| Store.Database.Register | users/serializers.py:100-105 | An address taken as submitted is a validation error. An address whose normalised form is taken slips past that check and fails with 500 at the unique constraint. Both failures change nothing. Otherwise an active account with the normalised address, no rights and no login is appended under the next key. |
| Store.Database.CreateCourse | lms/views.py:45-54 | Creating a course succeeds exactly when the create rule passes, and otherwise refuses with 401 or 403 and changes nothing. On success one course is appended: the requester owns it, it has the next key, and it was never notified. |
| Store.Database.CreateLesson | lms/views.py:94-102 | Creating a lesson after the POST rule passes needs an existing course key; an unknown key is a validation error that changes nothing. On success one lesson, owned by the requester, is appended under the next key. |
| Store.Database.DestroyCourse | lms/views.py:29-58 | A delete under the corrected rule succeeds exactly when the detail request does, and then applies the cascade. A failed request returns its error and changes nothing. |
| Store.Database.DestroyLesson | lms/views.py:116-119 | A lesson delete succeeds exactly when the detail request does, and then removes that lesson row only. |
| Store.Database.ToggleSubscription | lms/views.py:122-163 | The toggle endpoint gives 401 for an anonymous user, and 404 with nothing changed for an unknown course. Otherwise its new subscription table and message are those of the toggle function, with every other table unchanged. |
| Store.Database.SendCourseUpdateEmail | lms/tasks.py:12-58 | The course job's new state and mailed list are those of the notification function, and it returns the list's length. |
| Store.Database.SendLessonUpdateEmailIfNeeded | lms/tasks.py:61-111 | The lesson job's new state and mailed list are those of the lesson notification function, and it returns the list's length. |
| Store.Database.DeactivateInactiveUsers | users/tasks.py:8-25 | The row-by-row sweep loop leaves the user table the sweep function gives. It returns the number of stale users, which is the number of rows changed. Every other table is untouched. |

## Left out

- Mail transport and the subject and body text: a job's result is the list of addresses it would mail. Sending failures are swallowed by the source as well.
- Celery and celery-beat scheduling: each job is a method called with `now`.
- `timezone.now()` and time zones: `now` is a parameter, in whole seconds. Sub-second precision is not modelled.
- The race between `exists()` and `create()` in the toggle: the toggle is sequential, with no concurrency.
- `urlparse`: the network location is found by a simplified splitter. It takes an optional scheme (a letter, then letters, digits, '+', '-' or '.', then ':'), then "//" and the text up to the first '/', '?' or '#'. It does not strip whitespace or control characters, and does not raise on malformed IPv6 or NFKC-normalising hosts.
- Validators.Lower: lowercases ASCII letters only, not all of Unicode as `str.lower()` does.
- The validator is not attached to `Lesson.video_url` in the source, so lesson creation does not restrict the link's host. The model's lesson creation takes any string as the link (see the Store.Database.CreateLesson line for the field checks left out).
- The Stripe service (lms/services/stripe_service.py), the price field and payment amounts as decimals: payments carry an integer amount and are only created, checked and cascaded.
- Store.Database.CreateLesson: the message of the unknown-course error is simplified. The title, description and link are any strings: the required title of at most 255 characters and the URL format check on the link are not modelled. Preview images and the other optional fields of both forms are not modelled either.
- Store.Database.Register: `username` uniqueness (from Django's AbstractUser), the NFKC normalisation `create_user` applies to the username, and password hashing are not modelled. The username is stored as submitted, and only the unique e-mail is checked. The address normalisation lowercases ASCII letters only (see Validators.Lower). It also omits the surrounding-whitespace strip, because the serializer's e-mail field has already trimmed the value.
- Store.Database.CreateCourse: the title and description are any strings. The form's check of a required title of at most 255 characters is not modelled.
- Updating a course or lesson, retrieving it, and listing with pagination: these are modelled as the permission and scoping outcomes they depend on, with no method that rewrites title or description.
- The anonymous branch of both `get_queryset` methods is unreachable behind `IsAuthenticated`. It is still modelled and proved in the scoping lemmas.
- The user endpoints (users/views.py, users/filters.py): users/views.py is not part of this model. The IsSelf check and the profile field sets are modelled; which view uses which is not.
- users/serializers.py imports `Payment` from users.models, which declares only `User`. The payment check is modelled on its own attributes, as the serializer reads them.
- Keys are never reused: a key counter only grows, as with an auto-increment primary key. Deleting rows does not lower it.
- The `last_notification_sent_at` field is read and written by the jobs but not declared on the `Course` model class. It is modelled as the optional timestamp the jobs intend. As written, a freshly loaded course has no such attribute, so the jobs read None and the throttle never fires. After the mail has gone out, `save(update_fields=["last_notification_sent_at"])` (lms/tasks.py:56 and 109) raises ValueError for the undeclared field, so the jobs never return the recipient count. The model does neither: it stamps the course and returns the count.
- The order of the mailed list: `Recipients` takes subscriptions in ascending key order. The source query (lms/tasks.py:30-35) has no `order_by`, so its order is whatever the database returns. Only the set of addresses, and that none repeats, is what the source fixes.
- lms/tasks.py:114-129 is a second, identical copy of `deactivate_inactive_users_task`. Tasks.SweepUsers and Store.Database.DeactivateInactiveUsers model both copies. Their rows cite the one in users/tasks.py.
- The permission composition assumes the REST framework semantics stated above. In particular, `~` negates the object level (framework versions from 3.9). The object check of `|` needs one operand to allow both the request and the object (framework versions from 3.14). In older releases `|` ORs the two object checks alone; under that rule `IsModer | IsOwner` would pass every object, and the 403s expected at lms/tests.py:113-116 and 136-143 would not occur.
- Authentication is not tied to the active flag: an `Authenticated` principal may carry an account whose `isActive` is false, and the rules grant it what they grant an active account. In the service, JWT authentication (edusite/settings.py:87-88) refuses inactive accounts, so after the sweep their requests fail with 401.
- Store.Database.Register models the save path of `UserRegistrationSerializer`. No endpoint of the source reaches it: `UserViewSet` (users/views.py:5-11) uses `UserSerializer`, whose default create neither normalises the address nor sets a password.

## Findings

| source | as written | input that shows it | evidently intended | confidence | as-written member | corrected member |
|---|---|---|---|---|---|---|
| lms/views.py:57-58 | The destroy rule is `[IsAuthenticated, ~IsModer, IsOwner]`. `IsModer` leaves the object level at its default "allow", so `~IsModer` refuses every object. | A signed-in non-moderator sends DELETE for a course they own: the object check fails with 403, so no course can ever be deleted. | Only the non-moderator owner may delete, with "not a moderator" checked on the request alone. | not executed | Views.CourseDestroyAsWritten, Views.CourseDestroyNeverSucceeds | Views.CourseRulesCorrected, Views.CourseDestroyCorrectedOutcome, Store.Database.DestroyCourse |
| lms/validators.py:17-24 | The host is the network location cut at its first ':'. That is the end of the user name when the link carries "user:password@". | "https://youtu.be:@evil.com/" is accepted, although it leads to evil.com. | Compare the host the link leads to, after any "user:password@" prefix. | not executed | Validators.UserinfoBypass, Validators.BypassHost | Validators.ValidateYoutubeUrlCorrected, Validators.CorrectedIgnoresUserinfo, Validators.BypassRejectedWhenCorrected |
