/** Percentages of the dashboard (dashboard-view.ts). */
module Rates {
  /** Every shown rate lies in 0..100; one that already does is shown as it is. */
  function CapRate(value: real): (r: real)
    ensures 0.0 <= r <= 100.0
    ensures 0.0 <= value <= 100.0 ==> r == value
    ensures value < 0.0 ==> r == 0.0
    ensures value > 100.0 ==> r == 100.0
  {
    var atLeast := if value < 0.0 then 0.0 else value;
    if atLeast > 100.0 then 100.0 else atLeast
  }
}
