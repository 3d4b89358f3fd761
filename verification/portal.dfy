/** Fixed addresses of the portal the service talks to (main.py configuration). */
module Portal {

  const BASE_URL := "https://vtopcc.vit.ac.in/vtop/open/page"

  const LOGIN_PAGE_URL := "https://vtopcc.vit.ac.in/vtop/login"

  /** Path posted to when neither the caller nor the login page names a form action. */
  const FALLBACK_ACTION := "/vtop/doLogin"

  /** Where the timetable is fetched from when the caller gives no override. */
  const DEFAULT_TIMETABLE_URL := BASE_URL + "/vtop/academics/student/timetable"
}
