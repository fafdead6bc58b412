/** `get_greeting` (planetterp_core.py) with the clock's hour passed in. */
module Greetings {

  /** `get_greeting()` at hour `hour` of the local clock. */
  function Greeting(hour: int): (g: string)
    ensures g == "Good morning" <==> 6 <= hour <= 10
    ensures g == "Good afternoon" <==> 11 <= hour <= 16
    ensures g == "Good evening" <==> hour <= 5 || hour >= 17
  {
    if hour > 5 && hour < 11 then "Good morning"
    else if hour >= 11 && hour < 17 then "Good afternoon"
    else "Good evening"
  }

  /** Every hour of the day gets one of the three greetings, and the three
      ranges meet at 6, 11 and 17 o'clock; midnight to 5 is evening. */
  lemma GreetingOverTheDay(hour: int)
    requires 0 <= hour <= 23
    ensures Greeting(hour) in {"Good morning", "Good afternoon", "Good evening"}
    ensures 0 <= hour <= 5 ==> Greeting(hour) == "Good evening"
    ensures Greeting(5) != Greeting(6) && Greeting(10) != Greeting(11) && Greeting(16) != Greeting(17)
  {
  }
}
