/** The users page of src/pages/RegisterUser.jsx: the fetched list, the
    prefix shown `visibleCount` at a time and the "show more" button. The
    initials on each user's card are `Initials.SplitInitials`. */
module RegisterUserPage {
  import opened JsText
  import opened Entities
  import opened Paging

  /** Users shown before "VER MÁS USUARIOS" is pressed. */
  const InitialVisible: nat := 6

  class RegisterUser {
    var users: seq<User>
    var visibleCount: nat

    /** The state before the users arrive. */
    constructor ()
      ensures users == [] && visibleCount == InitialVisible
    {
      users := [];
      visibleCount := InitialVisible;
    }

    /** `fetchUsers`: the list when the request succeeded, the empty list when
        it failed; the visible count is left as it was. */
    method LoadUsers(data: Option<seq<User>>)
      modifies this
      ensures users == (if data.Some? then data.value else [])
      ensures visibleCount == old(visibleCount)
    {
      if data.Some? {
        users := data.value;
      } else {
        users := [];
      }
    }

    /** `visibleUsers`: the first `visibleCount` users, in order. */
    function VisibleUsers(): (r: seq<User>)
      reads this
      ensures r <= users && |r| == Min(visibleCount, |users|)
    {
      Take(users, visibleCount)
    }

    /** The "VER MÁS USUARIOS" button is shown exactly when some user is hidden. */
    function ShowMoreVisible(): (shown: bool)
      reads this
      ensures shown <==> VisibleUsers() != users
    {
      TakeHidesIffShort(users, visibleCount);
      visibleCount < |users|
    }

    /** `handleShowMore`: the count becomes the number of users, which shows them all. */
    method HandleShowMore()
      modifies this
      ensures users == old(users) && visibleCount == |users|
      ensures VisibleUsers() == users && !ShowMoreVisible()
    {
      visibleCount := |users|;
    }
  }
}
